# Image storage gateway of the marketplace bot, in Dafny

This project models the image storage gateway of the marketplace web application
(`ImageService`) and the small pieces of logic built around it, and proves what
they promise.

- **Upload** tries the remote image API only when the account id, the API token
  and the delivery URL are all set. On success it returns the remote id and the
  URL `{delivery}/{id}/public`. Otherwise it saves the bytes locally as
  `{uuid}{ext}`, choosing the extension from the data's magic bytes, and returns
  `/static/images/{folder}/{uuid}{ext}`.
- **Resolve** (`get_image_url`) handles, in order: an empty id, an absolute URL or
  rooted path (passed through), the remote delivery URL when the remote is
  configured, and then the first local file named `{id}.*`, the file named `id`,
  or the default.
- **Delete** cuts a URL down to its identifier. It asks the remote API when the
  account id and token are set, and removes at most one matching local file. It
  reports true when either backend deleted something.
- **Provisioning** at start-up makes the five image folders and creates the four
  placeholder files, each only when it is missing.
- **User and product helpers** (`models.py`): choose which stored id to resolve
  for a profile or a product, replace a profile image, and add or delete product
  images. Adding and deleting keep the `is_primary` flags consistent.
- **Template helpers** (`context_processors.py`): display names in Arabic, badge
  classes, dates, elapsed time, and the merge of query arguments.
- **The `image_url` filter** (`__init__.py`): picks a default for each folder and
  delegates to resolve. It sits beside the start-up report of whether remote
  storage is in use.

## How the model is built

- The local store under `static/images` is a `FileSystem` object.
  - Its `dirs` field maps each folder to its listing and file contents.
  - The listing is a sequence standing for what `os.listdir` returns. `os.listdir` promises no order; the model fixes one by putting a new file at the end (see "## Left out").
  - The folder `""` stands for `static/images` itself.
- The gateway's methods change that object in place. Each method is proved equal
  to a function of the old state (`Upload`, `ImageUrl`, `Delete`, `Provision`),
  and lemmas state the gateway's promises about those functions.
- Everything outside the program becomes a parameter:
  - `RemoteUpload` is the remote API's answer to the upload POST.
  - `remoteOk` is its answer to the DELETE.
  - `written` says whether the local write succeeded.
  - `rendered` is what PIL produced for each placeholder.
  - `freshId` stands for `uuid4()`.
  - `newId` is the key the database assigns to a new product image.
- The HEAD probe in `get_image_url` never changes the result, so it does not
  appear.
- `User` and `Product` are classes whose fields the helpers update.
  - A product's images are a sequence of `ProductImage` values, reassigned
    element by element.
- Python's `None` and `""` are both written `""` wherever the code tests them
  only for truthiness. Defaults, and the results of resolve, are `Option<string>`
  because `None` is passed through unchanged.

### Behaviour of the code worth knowing

- **Local match rule.** A local file matches an id when its name starts with the
  id followed by `.` (`bot/bot/image_service.py:170`, `240`). So for an id that
  itself contains a dot, such as `a.b`, the file `a.b.png` matches and `a.png`
  does not. Delete also accepts a file named exactly `id`.
- **Delete gate.** Delete's remote gate reads only the account id and the token
  (`bot/bot/image_service.py:210`). Upload and resolve also need the delivery URL
  (`bot/bot/image_service.py:37`, `148`). So a configuration without a delivery
  URL stores and resolves locally, but delete still calls the remote API.
  `Config.GatesDiffer` exhibits such a configuration.
- **Empty data.** Upload returns nothing, without touching the disk, when the
  decoded data is empty and the remote did not serve it
  (`bot/bot/image_service.py:76`).

## Model

| member | source | states |
|---|---|---|
| `Text.Split` | bot/bot/image_service.py:198 | `str.split` on one separator: at least one part, at least two when the separator occurs, and no part contains it |
| `Text.LastFieldAfter` | bot/bot/image_service.py:15 | the last field after splitting `a + sep + b`, where `b` is free of `sep`, is `b` (`rsplit('.', 1)[1]`) |
| `Text.SplitThree` | bot/bot/context_processors.py:73 | three separator-free fields joined by the separator split back into exactly those three fields |
| `Text.Lower` | bot/bot/image_service.py:15 | same length, and each character is lower-cased |
| `Text.NatToString` | bot/bot/context_processors.py:73 | `str(n)` is a non-empty string of decimal digits that starts with `0` only for `n == 0` (no leading zeros) |
| `Text.NatToStringRoundTrip` | bot/bot/context_processors.py:73 | `str(n)` reads back as `n` |
| `Config.DeleteGateWeaker` | bot/bot/image_service.py:210 | every configuration that lets upload and resolve go remote also lets delete go remote |
| `Config.GatesDiffer` | bot/bot/image_service.py:210 | some configuration lets delete call the remote API while upload and resolve stay local |
| `LocalDisk.MakeDirs` | bot/bot/image_service.py:80 | `makedirs(exist_ok=True)` adds the folder and its parent, keeps every existing folder unchanged, adds only empty folders, and keeps the store well formed |
| `LocalDisk.Written` | bot/bot/image_service.py:108-109 | after writing, the name is listed and holds exactly the data; every other file is unchanged; overwriting a listed name keeps the listing as it was; a new name is appended to the listing (the model's chosen order) and is the only file added; the listing stays duplicate-free |
| `LocalDisk.Removed` | bot/bot/image_service.py:242 | `os.remove` drops exactly the k-th name from the listing and from the contents, and leaves every other file |
| `LocalDisk.WrittenNew` | bot/bot/image_service.py:108-109 | writing a name the folder does not list appends it to the listing and adds exactly that one file |
| `LocalDisk.FileSystem.MakeFolder` | bot/bot/image_service.py:80 | the store becomes `MakeDirs` of the old store |
| `LocalDisk.FileSystem.WriteFile` | bot/bot/image_service.py:108-109 | the store becomes the old store with the file written |
| `LocalDisk.FileSystem.RemoveFile` | bot/bot/image_service.py:242 | the store becomes the old store with the k-th file of the folder removed |
| `Sniffer.Extension` | bot/bot/image_service.py:82-101 | the sniffer never fails: the result is one of `.jpg`, `.png`, `.gif`, `.webp` |
| `Sniffer.ExtensionCharacterized` | bot/bot/image_service.py:94-101 | `.png` exactly for the PNG signature, `.gif` exactly for GIF87a/GIF89a, `.webp` exactly for RIFF with WEBP at bytes 8-12, and `.jpg` for everything else (JPEG or unknown) |
| `Sniffer.ExtensionShape` | bot/bot/image_service.py:103 | every extension starts with '.', has at least four characters and contains no '/' |
| `ImageService.AllowedFileIff` | bot/bot/image_service.py:13-15 | allowed exactly when some '.' has no later '.' and the lower-cased text after it is an allowed extension |
| `ImageService.Upload` | bot/bot/image_service.py:17-126 | upload as a function of the store: the store stays well formed |
| `ImageService.UploadImage` | bot/bot/image_service.py:17-126 | the returned record and the new store are those of `Upload` on the old store |
| `ImageService.UploadUnconfiguredIsLocal` | bot/bot/image_service.py:37 | with any remote field empty, the remote answer never matters and any stored id is the fresh id |
| `ImageService.UploadRemote` | bot/bot/image_service.py:59-67 | a confirmed remote upload returns the remote id and `{delivery}/{id}/public`, and touches no file |
| `ImageService.UploadLocal` | bot/bot/image_service.py:76-117 | the local save returns the fresh id and `/static/images/{folder}/{id}{ext}`; the new file, holding exactly the input bytes, is appended to the listing (the model's chosen order); every other file and folder is unchanged |
| `ImageService.UploadNothing` | bot/bot/image_service.py:76-126 | nothing is returned exactly when decoding failed, or when the remote did not serve the upload and the data is empty or the write failed |
| `ImageService.UploadJpegScenario` | bot/bot/image_service.py:94-117 | a JPEG uploaded to `products` without remote configuration is saved as `{id}.jpg` with exactly its bytes |
| `ImageService.FirstMatch` | bot/bot/image_service.py:170-174 | the index of the first listed name that matches the id; no earlier name matches; None when no name matches |
| `ImageService.FirstMatchAt` | bot/bot/image_service.py:239-245 | the index where the scan stops, a match with no match before it, is the one `FirstMatch` names |
| `ImageService.ImageUrl` | bot/bot/image_service.py:128-189 | with a non-empty default, resolve always yields a non-empty URL |
| `ImageService.GetImageUrl` | bot/bot/image_service.py:128-189 | the scanning method returns exactly `ImageUrl` of the current store |
| `ImageService.ImageUrlEarlyRules` | bot/bot/image_service.py:133-161 | an empty id gives the default; an absolute or rooted id is returned unchanged; with the remote configured the result is `{delivery}/{id}/public`, whatever the probe says |
| `ImageService.ImageUrlLocal` | bot/bot/image_service.py:164-189 | the URL of the first listed `{id}.*`; otherwise the file named `id`; otherwise, including when the folder is missing, the default |
| `ImageService.NoMatchAmongFresh` | bot/bot/image_service.py:21 | in a listing where no name starts with a fresh id, no name matches an id that extends it |
| `ImageService.FirstMatchAtEnd` | bot/bot/image_service.py:170-174 | when only the appended name matches, the scan finds it at the end |
| `ImageService.NameMatchesFreshId` | bot/bot/image_service.py:103 | `{id}{ext}` starts with `{id}.` |
| `ImageService.FreshNameIsNew` | bot/bot/image_service.py:103 | a name built on a fresh id is not yet listed |
| `ImageService.UploadResolveRoundTrip` | bot/bot/image_service.py:17-189 | resolving the id an upload returned gives back the URL it returned, when the remote is unconfigured or the remote upload succeeded |
| `ImageService.LocalFallbackResolvesRemote` | bot/bot/image_service.py:148-161 | with the remote configured, an image saved locally after a failed remote upload resolves to the delivery URL, which differs from the URL the upload returned |
| `ImageService.DeliveryIsNotLocal` | bot/bot/image_service.py:111 | a delivery URL never equals a local URL whose name ends like a sniffed extension |
| `ImageService.ExtractId` | bot/bot/image_service.py:196-201 | a non-URL id is kept; an id cut from a URL is a single path segment |
| `ImageService.ExtractIdOfDeliveryUrl` | bot/bot/image_service.py:196-201 | deleting by a delivery URL targets the remote id in it (the trailing `public` is skipped) |
| `ImageService.ExtractIdOfLocalUrl` | bot/bot/image_service.py:196-199 | deleting by a local URL targets the filename in it |
| `ImageService.Delete` | bot/bot/image_service.py:192-251 | delete as a function of the store: the store stays well formed |
| `ImageService.DeleteImage` | bot/bot/image_service.py:192-251 | the result and the new store are those of `Delete` on the old store |
| `ImageService.DeleteOutcomes` | bot/bot/image_service.py:194-251 | the result is the remote confirmation OR a local match; with a local match exactly the first matching listed name is removed from the listing and from the contents, and nothing else changes; other folders are untouched; with no local match the store is unchanged |
| `ImageService.DeleteTwice` | bot/bot/image_service.py:239-251 | when at most one listed file matches, a second delete finds nothing locally and reports only the remote answer |
| `ImageService.DeleteLastMatch` | bot/bot/image_service.py:239-245 | when the id is the last listed name and nothing earlier matches, delete removes exactly that file, and a second delete reports false |
| `ImageService.UploadLocalFresh` | bot/bot/image_service.py:103-117 | a local upload under a fresh id appends one new name and leaves the other files' contents as they were |
| `ImageService.DeleteLocalHalf` | bot/bot/image_service.py:210-251 | the local removal and its result do not depend on the remote gate or the remote's answer: delete's store is the same under any configuration, and its result is the remote's answer under the gate OR the local result |
| `ImageService.UploadDeleteDelete` | bot/bot/image_service.py:192-251 | with upload and resolve local and any remote DELETE answers: upload, then delete by the returned URL, reports true and leaves exactly the store `makedirs` made (every folder as before, plus the folder and root if they were missing, empty); a second delete finds nothing locally and reports only the remote's answer under the delete gate |
| `ImageService.LocalNameIsItsOwnId` | bot/bot/image_service.py:196-201 | the local URL of `{id}{ext}` is cut back to `{id}{ext}` |
| `ImageService.MakeAllDirs` | bot/bot/image_service.py:261-263 | the folders, and the images root, now exist; existing folders are unchanged; every folder it creates is empty |
| `ImageService.Place` | bot/bot/image_service.py:273-295 | a placeholder already listed leaves the store unchanged; otherwise its name is appended to its folder (the model's chosen order) and holds PIL's bytes, or b'' when PIL failed; it is the only file added, and every other folder is unchanged |
| `ImageService.PlaceAll` | bot/bot/image_service.py:273-295 | placing all placeholders keeps the folder set and well-formedness |
| `ImageService.PlaceAllAddsOnlyPlaceholders` | bot/bot/image_service.py:273-295 | every file the placeholder loop creates is one of the listed placeholders, in its own folder, holding PIL's bytes or b'' |
| `ImageService.PlaceOne` | bot/bot/image_service.py:274-295 | one step of the placeholder loop leaves the store equal to `Place` of the old store |
| `ImageService.PlaceholderFoldersListed` | bot/bot/image_service.py:259-271 | every placeholder's folder is one of the five image folders or the images root |
| `ImageService.PlaceholderFoldersMade` | bot/bot/image_service.py:259-271 | after the folder loop, every placeholder's folder exists |
| `ImageService.Provision` | bot/bot/image_service.py:254-297 | provisioning keeps the store well formed |
| `ImageService.MakeFolders` | bot/bot/image_service.py:261-263 | the folder loop leaves the store equal to `MakeAllDirs` of the old store |
| `ImageService.PlacePlaceholders` | bot/bot/image_service.py:273-295 | the placeholder loop leaves the store equal to `PlaceAll` of the old store |
| `ImageService.CreatePlaceholderImages` | bot/bot/image_service.py:254-297 | the new store is `Provision` of the old store |
| `ImageService.PlaceAllListed` | bot/bot/image_service.py:273-295 | placing never drops a listed name, and leaves every placeholder listed |
| `ImageService.PlaceKeepsFiles` | bot/bot/image_service.py:275 | one placeholder step never rewrites or drops an existing file |
| `ImageService.PlaceAllKeepsFiles` | bot/bot/image_service.py:275 | placing never rewrites or drops an existing file |
| `ImageService.PlaceAllNoop` | bot/bot/image_service.py:275 | when every placeholder is already present, placing changes nothing |
| `ImageService.MakeAllDirsNoop` | bot/bot/image_service.py:263 | when every folder and the root exist, making them changes nothing |
| `ImageService.MakeThenPlace` | bot/bot/image_service.py:259-295 | after both loops, for any folder and placeholder lists whose placeholder folders get made: every folder exists, every placeholder is listed, no old file is changed |
| `ImageService.ProvisionMakesFolders` | bot/bot/image_service.py:259-263 | after provisioning, the five image folders exist |
| `ImageService.ProvisionPlacesDefaults` | bot/bot/image_service.py:266-295 | after provisioning, each of the four placeholders is listed in its folder |
| `ImageService.MakeThenPlaceAddsOnly` | bot/bot/image_service.py:259-295 | after both loops, for any folder and placeholder lists, every new file is a placeholder holding PIL's bytes or b'' |
| `ImageService.ProvisionAddsOnlyPlaceholders` | bot/bot/image_service.py:254-297 | provisioning creates no file except the four placeholders, each in its own folder and holding PIL's bytes or b'' |
| `ImageService.ProvisionKeepsFiles` | bot/bot/image_service.py:275 | provisioning never rewrites or drops a file that existed |
| `ImageService.ProvisionIdempotent` | bot/bot/image_service.py:254-297 | a second provisioning changes nothing, whatever the renderer produces |
| `ImageService.DefaultsAreLocalUrls` | bot/bot/__init__.py:40-41 | the configured default avatar and default product image are the local URLs of two of the placeholders that `create_placeholder_images` lists (`bot/bot/image_service.py:267-268`) |
| `ImageService.DefaultsAreProvisioned` | bot/bot/image_service.py:266-268 | after provisioning, the files behind both configured defaults exist |
| `ImageService.UploadFile` | bot/bot/image_service.py:299-330 | no file or a disallowed name gives nothing and leaves the store untouched; otherwise the result and the store are those of `Upload` |
| `Models.NewUserReview` | bot/bot/models.py:102-105 | a rating below 1 or above 5 fails with the rating error; any other rating builds the review |
| `Models.StoredUrlNonEmpty` | bot/bot/image_service.py:64-117 | every URL an upload returns is non-empty |
| `Models.User.ProfileImageUrl` | bot/bot/models.py:192-204 | never empty: the stored URL when set, else the default avatar when there is no image, else the image resolved in `users` with the default avatar |
| `Models.User.UpdateProfileImage` | bot/bot/models.py:207-228 | on a failed upload the result is false and both fields are unchanged; on success the old image, if any, is deleted, both fields take the new id and URL, and the profile now shows that URL |
| `Models.FirstPrimary` | bot/bot/models.py:238-242 | the index of the first image flagged primary; None when none is |
| `Models.MainImage` | bot/bot/models.py:235-245 | None exactly for no images; otherwise the first primary image if any is primary, else the first image |
| `Models.Cleared` | bot/bot/models.py:262-264 | every image is kept with its flag cleared |
| `Models.WithImage` | bot/bot/models.py:259-272 | the new image is appended (the model's chosen order), and every old image keeps its id, remote id and URL |
| `Models.FindImage` | bot/bot/models.py:289-293 | the index of the first image with the id; None when no image has it |
| `Models.WithoutImage` | bot/bot/models.py:297-308 | one image fewer; the others keep their order and every field but the flag |
| `Models.PrimaryAddIsOnlyPrimary` | bot/bot/models.py:262-272 | after adding a primary image, no older image is primary, and the new image is the one shown |
| `Models.NonPrimaryAddKeepsFlags` | bot/bot/models.py:262-272 | adding a non-primary image leaves every old image (flags included) as it was and does not change the image shown |
| `Models.WithImageKeepsAtMostOnePrimary` | bot/bot/models.py:253-281 | adding an image never produces two primary images |
| `Models.DeletePrimaryPromotesFirstOther` | bot/bot/models.py:297-308 | deleting the primary image while others remain makes the first other image primary, the only primary, and the one shown |
| `Models.DeleteNonPrimaryKeepsFlags` | bot/bot/models.py:297-308 | deleting a non-primary image only drops it |
| `Models.WithoutImageKeepsAtMostOnePrimary` | bot/bot/models.py:284-312 | deleting an image never produces two primary images |
| `Models.WithoutImageKeepsDistinctIds` | bot/bot/models.py:297-308 | deleting an image keeps the remaining ids distinct |
| `Models.PromoteThenRemove` | bot/bot/models.py:297-308 | flagging the first other image in place and then dropping the deleted one gives exactly `WithoutImage` |
| `Models.Product.MainImageUrl` | bot/bot/models.py:231-250 | never empty: the default product image when there are no images, else the chosen image resolved in `products` |
| `Models.Product.AddProductImage` | bot/bot/models.py:253-281 | on a failed upload nothing is added and the list is unchanged; on success the new image is returned and the list becomes `WithImage` of the old list; ids stay distinct |
| `Models.Product.DeleteProductImage` | bot/bot/models.py:284-312 | an unknown id gives false and changes nothing; otherwise the result is true, the stored image is deleted, and the list becomes `WithoutImage` of the old list |
| `ContextProcessors.FindKey` | bot/bot/context_processors.py:52 | the first entry with the key; None exactly when the key is absent |
| `ContextProcessors.FirstPrefix` | bot/bot/context_processors.py:166-168 | the first entry, in table order, whose key begins the text; None when none does |
| `ContextProcessors.GetOrSelfFallsBackIff` | bot/bot/context_processors.py:52 | when keys are ASCII and values Arabic, `get(key, key)` returns its input exactly when the key is absent |
| `ContextProcessors.ConditionName` | bot/bot/context_processors.py:43-52 | a known condition code gets its table name; the input comes back unchanged exactly when it is not a code |
| `ContextProcessors.EntityTypeName` | bot/bot/context_processors.py:173-182 | a known entity type gets its table name; the input comes back unchanged exactly when it is not a type |
| `ContextProcessors.ActionBadgeClass` | bot/bot/context_processors.py:107-132 | the class is always one of the six badge classes |
| `ContextProcessors.ActionBadgeClassIsFirstPrefix` | bot/bot/context_processors.py:107-132 | the if-chain equals the first-prefix lookup in the ordered prefix table, with `primary` when no prefix matches |
| `ContextProcessors.ActionName` | bot/bot/context_processors.py:134-171 | an exact key gives its name; otherwise the first key in table order that begins the action gives its name; otherwise the action itself |
| `ContextProcessors.ActionNameFallsBackIff` | bot/bot/context_processors.py:161-171 | the action comes back unchanged exactly when no key begins it |
| `ContextProcessors.UpdatePrefixReadsUpdate` | bot/bot/context_processors.py:165-168 | an action that begins with `update` and is not itself a key reads as the name of `update` |
| `ContextProcessors.FormatDate` | bot/bot/context_processors.py:54-73 | the unknown-date text is returned exactly when there is no date |
| `ContextProcessors.MonthOf` | bot/bot/context_processors.py:58-71 | a month found for a name is the month with that Arabic name |
| `ContextProcessors.MonthOfName` | bot/bot/context_processors.py:58-71 | each month's Arabic name reads back as that month |
| `ContextProcessors.FormatDateRoundTrip` | bot/bot/context_processors.py:73 | a formatted date, "day month year", reads back as the same date |
| `ContextProcessors.UnknownDateIsNoDate` | bot/bot/context_processors.py:56-57 | the unknown-date text never reads as a date |
| `ContextProcessors.Bucket` | bot/bot/context_processors.py:25-41 | "just now" exactly below 60 seconds |
| `ContextProcessors.BucketMeaning` | bot/bot/context_processors.py:27-41 | from 60 seconds on, the count is the number of whole units elapsed, at least one, in the largest unit not exceeding the elapsed time |
| `ContextProcessors.BucketBounds` | bot/bot/context_processors.py:27-38 | minutes stay below 60, hours below 24, days below 30, and months at most 12 |
| `ContextProcessors.BucketMonotonic` | bot/bot/context_processors.py:25-41 | an older moment never reads as more recent: the unit never decreases, and within a unit the count never decreases |
| `ContextProcessors.Render` | bot/bot/context_processors.py:25-41 | "just now" exactly for the under-a-minute bucket |
| `ContextProcessors.UnitWord` | bot/bot/context_processors.py:29-41 | a word read as a unit is that unit's singular or plural, as reported |
| `ContextProcessors.SingularIsNotPlural` | bot/bot/context_processors.py:29-41 | every unit's singular and plural words differ |
| `ContextProcessors.UnitWordOf` | bot/bot/context_processors.py:29-41 | each of the ten unit words reads back as its unit and number |
| `ContextProcessors.RenderFields` | bot/bot/context_processors.py:29-41 | "since N unit" splits into "since", the numeral of N and the unit word |
| `ContextProcessors.RenderRoundTrip` | bot/bot/context_processors.py:25-41 | the text of every bucket reads back as that bucket, so it carries both the count and the unit |
| `ContextProcessors.RenderUsesSingularIff` | bot/bot/context_processors.py:29-41 | the unit word is the singular exactly when N is 1 |
| `ContextProcessors.TimeSinceReadsBucket` | bot/bot/context_processors.py:23-41 | what time_since prints for an elapsed time reads back as the bucket of that time |
| `ContextProcessors.UnknownTimeIsNoAgo` | bot/bot/context_processors.py:18-21 | the unknown-time text never reads as a bucket |
| `ContextProcessors.TimeSince` | bot/bot/context_processors.py:11-41 | the unknown-time text exactly for a non-time; "just now" below 60 seconds |
| `ContextProcessors.UrlForWithArgs` | bot/bot/context_processors.py:89-103 | the arguments passed on are the request's arguments with the keyword arguments applied in order |
| `ContextProcessors.MergedMeaning` | bot/bot/context_processors.py:96-101 | a keyword set to None removes its key; any other keyword sets its value; every argument no keyword names is kept |
| `App.EffectiveDefault` | bot/bot/__init__.py:119-123 | a truthy default is kept; otherwise `users` gets the default avatar, `products` gets the default product image, and any other folder keeps what was passed |
| `App.ImageUrlFilter` | bot/bot/__init__.py:116-140 | an empty id gives the filled-in default; an absolute or rooted id is returned unchanged |
| `App.ImageUrlFilterDelegates` | bot/bot/__init__.py:138-140 | on every id the filter answers exactly what `get_image_url` answers with the filled-in default |
| `App.ImageUrlFilterNeverEmptyForDefaults` | bot/bot/__init__.py:119-128 | in `users` and `products` the filter always yields a non-empty URL |
| `App.StartupReport` | bot/bot/__init__.py:69-77 | the start-up line is information exactly when all three remote fields are set, and a warning otherwise |
| `App.RemoteStorageEnabledIff` | bot/bot/__init__.py:174 | the reported flag is true exactly when upload and resolve use the remote API |

## Left out

- Base64 decoding (`bot/bot/image_service.py:23-28`): upload receives bytes that are already decoded. `Undecodable` stands for `b64decode` raising.
- The `magic`/`mimetypes` branch (`bot/bot/image_service.py:86-92`) is a foreign library. The model uses the built-in byte sniffer, which applies when `magic` is missing.
- PIL rendering of placeholders (`bot/bot/image_service.py:277-290`): `rendered` gives the bytes PIL would write, and a missing entry means PIL failed, so the file is empty.
- A failing write of that empty stand-in file is not modelled. In the source it aborts the rest of provisioning.
- HTTP details (headers, endpoint URLs, JSON envelopes) are not modelled: only the outcome of each call is an input. The HEAD probe never changes resolve's result, so it is left out.
- Logging is left out everywhere.
- The start-up loop over the image folders and its write test (`bot/bot/__init__.py:79-94`) are not part of this model. `create_placeholder_images`, which is modelled, makes the same folders.
- Filesystem failures other than a write that fails before any file exists are not modelled: failing `makedirs`, `listdir` or `remove`, and errors caught by the broad `except` clauses.
- Upload: a local write that fails after `open(local_path, 'wb')` has created the file (`bot/bot/image_service.py:108-109`) leaves an empty or truncated `{uuid}{ext}` behind while upload returns None. The model's `written == false` leaves no file, so that stray partial file is not captured.
- Written, UploadLocal, Place: `os.listdir` (`bot/bot/image_service.py:169`, `239`) promises no order, so after a write the new file may appear anywhere in the real listing. The model fixes the order by appending it. Which `{id}.*` file resolve and delete pick first is read from that order, so it is the model's choice where several files match; the upload round trip and the delete lemmas do not depend on it, because the uploaded id is fresh.
- WithImage: `Product.images` (`bot/bot/models.py:137`) has no `order_by`, so after the commit at `bot/bot/models.py:273` the relationship reloads in whatever order the database returns, and the flag-clearing update at `bot/bot/models.py:263-264` may reorder the old images on some engines. The model fixes the order by appending the new image and keeping the old ones in place. `MainImage`'s "first image" and `WithoutImage`'s "first other image" are read from that fixed order.
- `os.path.exists(folder/id)` is modelled as "a file named `id` is listed". Subdirectories and ids containing `/` are not modelled.
- Non-string image ids (such as integers) in resolve, delete and the `image_url` filter are not modelled. Every id is a string.
- Text.Lower: folds ASCII letters only. Python's `str.lower` also folds other scripts, which no allowed extension contains.
- The database session is not modelled: commits, rollbacks, and a failing commit after fields were already set in memory.
- ORM objects are shared by reference in the source. The model keeps a product's images as values in one sequence, so aliasing is not captured.
- The key of a new product image is the `newId` parameter, fresh among the product's images, standing for the database's autoincrement.
- Other columns of the models are not modelled: timestamps, `product_id`, comments' contents.
- `url_for` is not modelled, so `UrlForWithArgs` returns the arguments it would receive.
- Werkzeug's `MultiDict` keeps several values per key. The model keeps one, and `pop` removes the key entirely.
- The first `url_for_with_args` (`bot/bot/context_processors.py:75-85`) is shadowed by the second, so it is not modelled.
- The clock, float `total_seconds()` and ISO-string parsing in `time_since` are inputs: a `Timestamp` carries whole elapsed seconds, or `NotATime` for anything that is not a datetime or does not parse.
  - Whole seconds are exact here, because every threshold and unit is an integer.
- TimeSince: does not model the TypeError raised when an ISO string with `Z` or an offset parses to a timezone-aware datetime (`bot/bot/context_processors.py:16`), which cannot be subtracted from the naive `utcnow()` (`bot/bot/context_processors.py:23`). That exception escapes `time_since`, and it is neither `Elapsed` nor `NotATime`.
- `format_price`, `calculate_rating` and `inject_common_data` are not part of this model: they involve floating point, the database, JWT and the session.
- Routes, `main.py`, `utils.py`, socket events, SEO, the JavaScript front end and the migration scripts are not part of this model.
- Concurrency is not modelled. Every call is sequential, and the races the source accepts between resolve and delete do not arise.
