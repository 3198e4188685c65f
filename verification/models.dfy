/**
 * The image-related parts of the data model: the rating guard of a user
 * review, a user's profile image (selection and replacement) and a product's
 * image list with its `is_primary` flags (selection, adding, deleting).
 * Database sessions and commits are not modelled: the state after a call is
 * the state the session would commit.
 */
module Models {
  import opened Wrappers
  import opened Config
  import opened LocalDisk
  import opened ImageService

  /* ---------------------------------------------------------------------- */
  /* UserReview                                                              */

  datatype UserReview = UserReview(reviewerId: int, reviewedUserId: int, rating: int, comment: string,
                                   productId: Option<int>)

  const RatingError: string := "يجب أن يكون التقييم بين 1 و 5"

  /** The UserReview constructor: a rating outside 1..5 raises ValueError. */
  function NewUserReview(reviewerId: int, reviewedUserId: int, rating: int, comment: string,
                         productId: Option<int>): (r: Result<UserReview, string>)
    ensures r.Failure? <==> rating < 1 || rating > 5
    ensures r.Failure? ==> r.error == RatingError
    ensures r.Success? ==> r.value == UserReview(reviewerId, reviewedUserId, rating, comment, productId)
    ensures r.Success? ==> 1 <= r.value.rating <= 5
  {
    if rating < 1 || rating > 5 then Failure(RatingError)
    else Success(UserReview(reviewerId, reviewedUserId, rating, comment, productId))
  }

  /* ---------------------------------------------------------------------- */
  /* User: profile image                                                     */

  /** Every URL an upload hands back is non-empty. */
  lemma StoredUrlNonEmpty(cfg: RemoteConfig, dirs: Dirs, payload: Payload, folder: string, freshId: string,
                          remote: RemoteUpload, written: bool)
    ensures var o := Upload(cfg, dirs, payload, folder, freshId, remote, written);
            o.stored.Some? ==> o.stored.value.url != ""
  {
    var o := Upload(cfg, dirs, payload, folder, freshId, remote, written);
    if o.stored.Some? {
      assert o.stored.value.url[0] in {'/'} || o.stored.value.url[0] == cfg.deliveryUrl[0];
    }
  }

  /** The two profile-image columns of a user ("" for NULL). */
  class User {
    var profileImage: string
    var profileImageUrl: string

    constructor (profileImage: string, profileImageUrl: string)
      ensures this.profileImage == profileImage && this.profileImageUrl == profileImageUrl
    {
      this.profileImage := profileImage;
      this.profileImageUrl := profileImageUrl;
    }

    /**
     * get_profile_image_url: the stored URL when there is one, else the
     * default avatar for a user with no image, else the resolved image.
     */
    function ProfileImageUrl(cfg: RemoteConfig, dirs: Dirs): (r: string)
      reads this
      ensures r != ""
      ensures profileImageUrl != "" ==> r == profileImageUrl
      ensures profileImageUrl == "" && profileImage == "" ==> r == DefaultAvatar
      ensures profileImageUrl == "" && profileImage != "" ==>
                Some(r) == ImageUrl(cfg, dirs, profileImage, Some(DefaultAvatar), "users")
    {
      if profileImageUrl != "" then profileImageUrl
      else if profileImage == "" then DefaultAvatar
      else ImageUrl(cfg, dirs, profileImage, Some(DefaultAvatar), "users").value
    }

    /**
     * update_profile_image: upload into `users`; on success delete the old
     * image (if any) and keep the new id and URL, on failure keep both fields.
     * `remoteDeleteOk` is the remote API's answer to the delete of the old image.
     */
    method UpdateProfileImage(fs: FileSystem, cfg: RemoteConfig, payload: Payload, freshId: string,
                              remote: RemoteUpload, written: bool, remoteDeleteOk: bool)
      returns (ok: bool)
      requires fs.Valid()
      modifies this, fs
      ensures fs.Valid()
      ensures var up := Upload(cfg, old(fs.dirs), payload, "users", freshId, remote, written);
              && ok == up.stored.Some?
              && (!ok ==> profileImage == old(profileImage) && profileImageUrl == old(profileImageUrl)
                          && fs.dirs == up.dirs)
              && (ok ==> profileImage == up.stored.value.id && profileImageUrl == up.stored.value.url
                         && fs.dirs == (if old(profileImage) == "" then up.dirs
                                        else Delete(cfg, up.dirs, old(profileImage), "users", remoteDeleteOk).dirs))
      ensures ok ==> ProfileImageUrl(cfg, fs.dirs) == profileImageUrl
    {
      var stored := UploadImage(fs, cfg, payload, "users", freshId, remote, written);
      if stored.None? {
        return false;
      }
      StoredUrlNonEmpty(cfg, old(fs.dirs), payload, "users", freshId, remote, written);
      if profileImage != "" {
        var _ := DeleteImage(fs, cfg, profileImage, "users", remoteDeleteOk);
      }
      profileImage := stored.value.id;
      profileImageUrl := stored.value.url;
      return true;
    }
  }

  /* ---------------------------------------------------------------------- */
  /* Product: images and the primary flag                                    */

  /** A row of product_image; `id` is its primary key. */
  datatype ProductImage = ProductImage(id: int, cloudflareId: string, url: string, isPrimary: bool)

  ghost predicate DistinctIds(images: seq<ProductImage>)
  {
    forall i, j :: 0 <= i < j < |images| ==> images[i].id != images[j].id
  }

  /** The intended shape of the flags: never two primary images. */
  ghost predicate AtMostOnePrimary(images: seq<ProductImage>)
  {
    forall i, j :: 0 <= i < j < |images| && images[i].isPrimary ==> !images[j].isPrimary
  }

  /** Index of the first image flagged primary. */
  function FirstPrimary(images: seq<ProductImage>): (k: Option<nat>)
    ensures k.None? <==> forall i :: 0 <= i < |images| ==> !images[i].isPrimary
    ensures k.Some? ==> k.value < |images| && images[k.value].isPrimary
    ensures k.Some? ==> forall i :: 0 <= i < k.value ==> !images[i].isPrimary
  {
    if images == [] then None
    else if images[0].isPrimary then Some(0)
    else
      match FirstPrimary(images[1..])
      case None => None
      case Some(k) => Some(k + 1)
  }

  /** The image get_main_image_url resolves: the first primary one, else the first one. */
  function MainImage(images: seq<ProductImage>): (m: Option<ProductImage>)
    ensures m.None? <==> images == []
    ensures m.Some? ==> m.value in images
    ensures m.Some? && (exists i :: 0 <= i < |images| && images[i].isPrimary) ==>
              m.value.isPrimary &&
              exists k :: 0 <= k < |images| && images[k] == m.value &&
                forall i :: 0 <= i < k ==> !images[i].isPrimary
    ensures m.Some? && (forall i :: 0 <= i < |images| ==> !images[i].isPrimary) ==> m.value == images[0]
  {
    match FirstPrimary(images)
    case Some(k) => Some(images[k])
    case None => if images == [] then None else Some(images[0])
  }

  /** Every flag cleared (the loop of add_product_image with is_primary). */
  function Cleared(images: seq<ProductImage>): (r: seq<ProductImage>)
    ensures |r| == |images|
    ensures forall i :: 0 <= i < |r| ==> r[i] == images[i].(isPrimary := false)
  {
    seq(|images|, i requires 0 <= i < |images| => images[i].(isPrimary := false))
  }

  /** The list after add_product_image appended `img`. */
  function WithImage(images: seq<ProductImage>, img: ProductImage): (r: seq<ProductImage>)
    ensures |r| == |images| + 1 && r[|images|] == img
    ensures forall i :: 0 <= i < |images| ==>
              r[i].id == images[i].id && r[i].cloudflareId == images[i].cloudflareId && r[i].url == images[i].url
  {
    if img.isPrimary then Cleared(images) + [img] else images + [img]
  }

  /** Index of the first image with the given id. */
  function FindImage(images: seq<ProductImage>, id: int): (k: Option<nat>)
    ensures k.None? <==> forall i :: 0 <= i < |images| ==> images[i].id != id
    ensures k.Some? ==> k.value < |images| && images[k.value].id == id
    ensures k.Some? ==> forall i :: 0 <= i < k.value ==> images[i].id != id
  {
    if images == [] then None
    else if images[0].id == id then Some(0)
    else
      match FindImage(images[1..], id)
      case None => None
      case Some(k) => Some(k + 1)
  }

  /**
   * The list after delete_product_image removed the k-th image: when that
   * image was primary and others remain, the first remaining one is promoted.
   */
  function WithoutImage(images: seq<ProductImage>, k: nat): (r: seq<ProductImage>)
    requires k < |images|
    ensures |r| == |images| - 1
    ensures forall i :: 0 <= i < |r| ==>
              r[i].(isPrimary := false) == (images[..k] + images[k + 1..])[i].(isPrimary := false)
  {
    var rest := images[..k] + images[k + 1..];
    if images[k].isPrimary && |images| > 1 then rest[0 := rest[0].(isPrimary := true)] else rest
  }

  /** Adding a primary image leaves it the only primary one, and the one the product page shows. */
  lemma PrimaryAddIsOnlyPrimary(images: seq<ProductImage>, img: ProductImage)
    requires img.isPrimary
    ensures var r := WithImage(images, img);
            && (forall i :: 0 <= i < |images| ==> !r[i].isPrimary)
            && MainImage(r) == Some(img)
  {
    var r := WithImage(images, img);
    assert FirstPrimary(r) == Some(|images|);
  }

  /** Adding a non-primary image touches no flag, and the shown image stays the same. */
  lemma NonPrimaryAddKeepsFlags(images: seq<ProductImage>, img: ProductImage)
    requires !img.isPrimary
    ensures WithImage(images, img)[..|images|] == images
    ensures images != [] ==> MainImage(WithImage(images, img)) == MainImage(images)
  {
    var r := WithImage(images, img);
    assert r[..|images|] == images;
    if images != [] {
      match FirstPrimary(images)
      case Some(k) =>
        assert FirstPrimary(r) == Some(k);
      case None =>
        assert FirstPrimary(r).None?;
    }
  }

  /** Adding an image never produces a second primary image. */
  lemma WithImageKeepsAtMostOnePrimary(images: seq<ProductImage>, img: ProductImage)
    requires AtMostOnePrimary(images)
    ensures AtMostOnePrimary(WithImage(images, img))
  {
    if img.isPrimary {
      PrimaryAddIsOnlyPrimary(images, img);
    } else {
      NonPrimaryAddKeepsFlags(images, img);
      var r := WithImage(images, img);
      forall i, j | 0 <= i < j < |r| && r[i].isPrimary ensures !r[j].isPrimary {
        assert r[i] == images[i];
        if j < |images| {
          assert r[j] == images[j];
        }
      }
    }
  }

  /**
   * Deleting the primary image while others remain: the first remaining image
   * becomes the primary one, the only one, and the one the product page shows.
   */
  lemma DeletePrimaryPromotesFirstOther(images: seq<ProductImage>, k: nat)
    requires AtMostOnePrimary(images) && k < |images| && images[k].isPrimary && |images| > 1
    ensures var rest := images[..k] + images[k + 1..];
            var r := WithoutImage(images, k);
            && r[0] == rest[0].(isPrimary := true)
            && r[1..] == rest[1..]
            && (forall i :: 1 <= i < |r| ==> !r[i].isPrimary)
            && MainImage(r) == Some(r[0])
  {
    var rest := images[..k] + images[k + 1..];
    var r := WithoutImage(images, k);
    forall i | 1 <= i < |r| ensures !r[i].isPrimary {
      if i < k {
        assert r[i] == images[i];
      } else {
        assert r[i] == images[i + 1];
      }
    }
    assert FirstPrimary(r) == Some(0);
  }

  /** Deleting a non-primary image only drops it: every other image and flag is kept, in order. */
  lemma DeleteNonPrimaryKeepsFlags(images: seq<ProductImage>, k: nat)
    requires k < |images| && !images[k].isPrimary
    ensures WithoutImage(images, k) == images[..k] + images[k + 1..]
  {
  }

  /** Deleting an image never produces a second primary image. */
  lemma WithoutImageKeepsAtMostOnePrimary(images: seq<ProductImage>, k: nat)
    requires AtMostOnePrimary(images) && k < |images|
    ensures AtMostOnePrimary(WithoutImage(images, k))
  {
    var r := WithoutImage(images, k);
    if images[k].isPrimary && |images| > 1 {
      DeletePrimaryPromotesFirstOther(images, k);
    } else {
      forall i, j | 0 <= i < j < |r| && r[i].isPrimary ensures !r[j].isPrimary {
        var i' := if i < k then i else i + 1;
        var j' := if j < k then j else j + 1;
        assert r[i] == images[i'] && r[j] == images[j'];
      }
    }
  }

  /** With distinct ids, the image found by id is the only one carrying it. */
  lemma OnlyOneWithId(images: seq<ProductImage>, k: nat)
    requires DistinctIds(images) && k < |images|
    ensures forall i :: 0 <= i < |images| && i != k ==> images[i].id != images[k].id
  {
  }

  /** Removing an image keeps the remaining ids distinct. */
  lemma WithoutImageKeepsDistinctIds(images: seq<ProductImage>, k: nat)
    requires DistinctIds(images) && k < |images|
    ensures DistinctIds(WithoutImage(images, k))
  {
    var r := WithoutImage(images, k);
    forall i, j | 0 <= i < j < |r| ensures r[i].id != r[j].id {
      var i' := if i < k then i else i + 1;
      var j' := if j < k then j else j + 1;
      assert r[i].id == images[i'].id && r[j].id == images[j'].id;
    }
  }

  /**
   * The in-place order of delete_product_image (flag the first other image,
   * then drop the k-th) gives the list WithoutImage describes.
   */
  lemma PromoteThenRemove(images: seq<ProductImage>, k: nat, j: nat)
    requires k < |images| && |images| > 1 && images[k].isPrimary
    requires j == if k == 0 then 1 else 0
    ensures var flagged := images[j := images[j].(isPrimary := true)];
            flagged[..k] + flagged[k + 1..] == WithoutImage(images, k)
  {
    var flagged := images[j := images[j].(isPrimary := true)];
    var rest := images[..k] + images[k + 1..];
    var r := flagged[..k] + flagged[k + 1..];
    assert |r| == |rest|;
    forall i | 0 <= i < |r| ensures r[i] == rest[0 := rest[0].(isPrimary := true)][i] {
      if i < k {
        assert r[i] == flagged[i];
      } else {
        assert r[i] == flagged[i + 1];
      }
    }
  }

  /** A product's images, in the order of the relationship. */
  class Product {
    var images: seq<ProductImage>

    ghost predicate Valid()
      reads this
    {
      DistinctIds(images)
    }

    constructor (images: seq<ProductImage>)
      requires DistinctIds(images)
      ensures Valid() && this.images == images
    {
      this.images := images;
    }

    /** get_main_image_url: the chosen image resolved in `products`, else the default product image. */
    function MainImageUrl(cfg: RemoteConfig, dirs: Dirs): (r: string)
      reads this
      ensures r != ""
      ensures images == [] ==> r == DefaultProduct
      ensures images != [] ==>
                Some(r) == ImageUrl(cfg, dirs, MainImage(images).value.cloudflareId, Some(DefaultProduct), "products")
    {
      match MainImage(images)
      case None => DefaultProduct
      case Some(img) => ImageUrl(cfg, dirs, img.cloudflareId, Some(DefaultProduct), "products").value
    }

    /**
     * add_product_image: upload into `products`; on success clear every flag
     * when the new image is primary, then append it. `newId` is the key the
     * database assigns to the new row.
     */
    method AddProductImage(fs: FileSystem, cfg: RemoteConfig, payload: Payload, isPrimary: bool, newId: int,
                           freshId: string, remote: RemoteUpload, written: bool)
      returns (added: Option<ProductImage>)
      requires fs.Valid() && Valid()
      requires forall i :: 0 <= i < |images| ==> images[i].id != newId
      modifies this, fs
      ensures fs.Valid() && Valid()
      ensures var up := Upload(cfg, old(fs.dirs), payload, "products", freshId, remote, written);
              && fs.dirs == up.dirs
              && (up.stored.None? ==> added.None? && images == old(images))
              && (up.stored.Some? ==>
                    added == Some(ProductImage(newId, up.stored.value.id, up.stored.value.url, isPrimary))
                    && images == WithImage(old(images), added.value))
    {
      var stored := UploadImage(fs, cfg, payload, "products", freshId, remote, written);
      if stored.None? {
        return None;
      }
      if isPrimary && |images| > 0 {
        for i := 0 to |images|
          modifies this
          invariant |images| == |old(images)|
          invariant forall j :: 0 <= j < i ==> images[j] == old(images)[j].(isPrimary := false)
          invariant forall j :: i <= j < |images| ==> images[j] == old(images)[j]
        {
          images := images[i := images[i].(isPrimary := false)];
        }
        assert images == Cleared(old(images));
      }
      assert forall i :: 0 <= i < |images| ==> images[i].id == old(images)[i].id;
      var img := ProductImage(newId, stored.value.id, stored.value.url, isPrimary);
      images := images + [img];
      return Some(img);
    }

    /**
     * delete_product_image: find the image by id; if absent report false and
     * change nothing; else delete its stored file, drop it from the list and,
     * if it was primary, promote the first other image. `remoteOk` is the
     * remote API's answer to the delete.
     */
    method DeleteProductImage(fs: FileSystem, cfg: RemoteConfig, imageId: int, remoteOk: bool)
      returns (ok: bool)
      requires fs.Valid() && Valid()
      modifies this, fs
      ensures fs.Valid() && Valid()
      ensures var k := FindImage(old(images), imageId);
              && ok == k.Some?
              && (k.None? ==> images == old(images) && fs.dirs == old(fs.dirs))
              && (k.Some? ==>
                    images == WithoutImage(old(images), k.value)
                    && fs.dirs == Delete(cfg, old(fs.dirs), old(images)[k.value].cloudflareId, "products", remoteOk).dirs)
    {
      var k := 0;
      while k < |images| && images[k].id != imageId
        invariant k <= |images|
        invariant forall i :: 0 <= i < k ==> images[i].id != imageId
      {
        k := k + 1;
      }
      if k == |images| {
        return false;
      }
      var image := images[k];
      OnlyOneWithId(images, k);
      var _ := DeleteImage(fs, cfg, image.cloudflareId, "products", remoteOk);
      WithoutImageKeepsDistinctIds(images, k);
      if image.isPrimary && |images| > 1 {
        var j := 0;
        while j < |images| && images[j].id == imageId
          invariant j == 0 || (j == 1 && k == 0)
        {
          j := j + 1;
        }
        PromoteThenRemove(images, k, j);
        images := images[j := images[j].(isPrimary := true)];
      }
      images := images[..k] + images[k + 1..];
      return true;
    }
  }
}
