/**
 * The content sniffer of upload_image: the stored file's extension comes from
 * the first bytes of the data, never from the client's filename or MIME type.
 */
module Sniffer {
  import opened LocalDisk

  const JpegMagic: Bytes := [0xFF, 0xD8]
  const PngMagic: Bytes := [0x89, 0x50, 0x4E, 0x47, 0x0D, 0x0A, 0x1A, 0x0A]   // \x89PNG\r\n\x1a\n
  const Gif87a: Bytes := [0x47, 0x49, 0x46, 0x38, 0x37, 0x61]                  // GIF87a
  const Gif89a: Bytes := [0x47, 0x49, 0x46, 0x38, 0x39, 0x61]                  // GIF89a
  const Riff: Bytes := [0x52, 0x49, 0x46, 0x46]                                // RIFF
  const Webp: Bytes := [0x57, 0x45, 0x42, 0x50]                                // WEBP

  predicate IsGif(data: Bytes)
  {
    Gif87a <= data || Gif89a <= data
  }

  /** RIFF container whose bytes [8, 12) read WEBP (data[8:12] == b'WEBP'). */
  predicate IsWebp(data: Bytes)
  {
    Riff <= data && |data| >= 12 && data[8..12] == Webp
  }

  /** The extension the local save uses; unknown data keeps the default ".jpg". */
  function Extension(data: Bytes): (ext: string)
    ensures ext in {".jpg", ".png", ".gif", ".webp"}
  {
    if JpegMagic <= data then ".jpg"
    else if PngMagic <= data then ".png"
    else if IsGif(data) then ".gif"
    else if IsWebp(data) then ".webp"
    else ".jpg"
  }

  /**
   * The signatures exclude each other (they differ in the first byte), so each
   * extension is chosen exactly by its own signature, whatever the order of tests.
   */
  lemma ExtensionCharacterized(data: Bytes)
    ensures Extension(data) == ".png" <==> PngMagic <= data
    ensures Extension(data) == ".gif" <==> IsGif(data)
    ensures Extension(data) == ".webp" <==> IsWebp(data)
    ensures Extension(data) == ".jpg" <==> !(PngMagic <= data) && !IsGif(data) && !IsWebp(data)
  {
    if JpegMagic <= data {
      assert data[0] == 0xFF;
      assert !(PngMagic <= data) by { assert PngMagic[0] == 0x89; }
      assert !IsGif(data) by { assert Gif87a[0] == 0x47 && Gif89a[0] == 0x47; }
      assert !IsWebp(data) by { assert Riff[0] == 0x52; }
    } else if PngMagic <= data {
      assert data[0] == 0x89;
      assert !IsGif(data) by { assert Gif87a[0] == 0x47 && Gif89a[0] == 0x47; }
    } else if IsGif(data) {
      assert data[0] == 0x47;
      assert !IsWebp(data) by { assert Riff[0] == 0x52; }
    }
  }

  /** Whatever the data, the sniffer yields an extension with its leading dot and no path separator. */
  lemma ExtensionShape(data: Bytes)
    ensures |Extension(data)| >= 4 && Extension(data)[0] == '.' && '/' !in Extension(data)
  {
  }
}
