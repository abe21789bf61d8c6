# HouseService, modelled in Dafny

A model of `HouseService`, the service of a booking application that writes
house listings. It registers a house (`create`) and edits one (`update`)
from a form. A form may carry an uploaded image. A non-empty image is copied under the storage root
with a collision-resistant name (`generateNewFileName`). The house then refers
to the image by that name. A failed copy is swallowed (`copyImageFile`).

Modules:

- `FileNames` (file_names.dfy): Java's `String.split("\\.")` with its
  limit-0 behaviour, `String.join(".", …)`, and the renaming of every segment
  but the last. This is the specification of the name generator, with its
  lemmas.
- `Entities` (entities.dfy): the forms, the `House` entity as a class whose
  setters are field assignments, and `HouseRepository` as a map from id to
  row.
- `FileStorage` (file_storage.dfy): the file system under the storage root.
  It keeps the stored files by path and the ordered list of paths a copy was
  attempted to.
- `Services` (house_service.dfy): the `HouseService` class. It holds
  `GenerateNewFileName`, which overwrites an array of segments in a loop,
  plus `CopyImageFile`, `Create` and `Update`.
- `Wrappers` (wrappers.dfy): `Option`, used where Java has `null`.

The fresh tokens that `UUID.randomUUID()` would produce are a parameter: a
sequence of strings, used in order. The outcome of each copy is a parameter
too: `ioError`. Everything else is deterministic.

Behaviour worth knowing, proved here:

- A name without `.` is returned unchanged, because the loop runs up to
  `length - 1` (`NoDotUnchanged`). Two uploads named `photo` therefore get the
  same path. The second copy then fails because the target exists, the failure
  is swallowed, and both houses refer to the first file.
- `"photo."` becomes `"photo"`, because `split` drops trailing empty segments
  (`TrailingDot`). `OneDot` needs a non-empty extension for this reason.
- A name made only of `.`, such as `"..."`, becomes `""`, which splits into
  one empty segment, not zero (`OnlyDotsGainsASegment`).
- An empty generated name makes the target path the storage root itself. That
  path is an existing directory, so the copy fails and is swallowed. The house
  still refers to the empty name, which names no file (`Create`, `Update`).
- `update` on an id that names no house returns `NotFound`. With a non-empty
  image, it first copies the file. `getReferenceById` returns a lazy reference,
  and that reference fails at its first setter, which comes after the copy.

## Model

| member | source | states |
|---|---|---|
| `FileNames.JavaSplit` | src/main/java/com/example/samuraitravel/service/HouseService.java:97 | `split("\\.")`: a name without `.` is its only segment, the empty name included; otherwise no segment holds `.` and the last segment is not empty, because trailing empty segments are dropped |
| `FileNames.DropTrailingEmpty` | src/main/java/com/example/samuraitravel/service/HouseService.java:97 | The result is a prefix of the segments, ends in a non-empty segment or is empty, and everything removed is empty |
| `FileNames.Renamed` | src/main/java/com/example/samuraitravel/service/HouseService.java:98-100 | Same number of segments; segment `i` is token `i` for every `i` but the last; the last segment is kept |
| `FileNames.JoinSplitAll` | src/main/java/com/example/samuraitravel/service/HouseService.java:97-101 | Joining the raw segments of a split with `.` gives back the original string |
| `FileNames.SplitAllJoin` | src/main/java/com/example/samuraitravel/service/HouseService.java:101 | Splitting a `.`-join of `.`-free segments gives back the segments |
| `FileNames.JavaSplitLosesOnlyTrailingDots` | src/main/java/com/example/samuraitravel/service/HouseService.java:97 | What `split` discards is only `.` characters at the end of the name: the join of its segments is a prefix of the name, and the rest is all `.` |
| `FileNames.SplitAll` | src/main/java/com/example/samuraitravel/service/HouseService.java:97 | The raw split on `.`, empty segments included; it has at least one segment, and `JoinSplitAll`, `SplitAllJoin` and `SplitAllDotFree` state its properties |
| `FileNames.Join` | src/main/java/com/example/samuraitravel/service/HouseService.java:101 | `String.join(".", …)`, defined by recursion without a contract of its own; `JoinSplitAll`, `SplitAllJoin`, `JoinAppend` and `JoinHasDot` state its properties |
| `FileNames.NewFileName` | src/main/java/com/example/samuraitravel/service/HouseService.java:96-103 | The specification of `generateNewFileName`: join of the renamed split. It has no contract of its own; `GenerateNewFileName` is proved equal to it, and `NoDotUnchanged`, `KeepsExtension`, `ResplitRenamed`, `FreshTokenFreshName` and the example lemmas state its properties |
| `FileNames.SplitAllDotFree` | src/main/java/com/example/samuraitravel/service/HouseService.java:97 | No segment of the raw split contains `.` |
| `Services.HouseService.GenerateNewFileName` | src/main/java/com/example/samuraitravel/service/HouseService.java:96-103 | The array loop that overwrites every segment but the last, followed by the join, yields exactly `NewFileName(fileName, tokens)` |
| `FileNames.NoDotUnchanged` | src/main/java/com/example/samuraitravel/service/HouseService.java:97-101 | A name without `.` is returned unchanged, with any tokens |
| `FileNames.KeepsExtension` | src/main/java/com/example/samuraitravel/service/HouseService.java:97-101 | With two or more segments, the result is the used tokens joined with `.`, then `.` and the last segment of the name |
| `FileNames.EndsWithExtension` | src/main/java/com/example/samuraitravel/service/HouseService.java:97-101 | With two or more segments, the result ends with `"." + extension` |
| `FileNames.ResplitRenamed` | src/main/java/com/example/samuraitravel/service/HouseService.java:97-101 | With `.`-free tokens, splitting the result gives the renamed segments: token `i` at every position but the last, and the extension last |
| `FileNames.SegmentCountPreserved` | src/main/java/com/example/samuraitravel/service/HouseService.java:97-101 | With `.`-free tokens and at least one segment, the result splits into as many segments as the name |
| `FileNames.OnlyDotsGainsASegment` | src/main/java/com/example/samuraitravel/service/HouseService.java:97 | Every non-empty name made only of `.`, such as `"..."`, splits into no segment and becomes `""`, which splits into one segment, so the count is not kept |
| `FileNames.FreshTokenFreshName` | src/main/java/com/example/samuraitravel/service/HouseService.java:94-103 | Two names with an extension that get different first tokens produce different names |
| `FileNames.TrailingDot` | src/main/java/com/example/samuraitravel/service/HouseService.java:97 | `base + "."` becomes `base` for every `.`-free base, so `"photo."` becomes `"photo"` and `"."` becomes `""` |
| `FileNames.OneDot` | src/main/java/com/example/samuraitravel/service/HouseService.java:96-103 | `base + "." + ext` becomes `t0 + "." + ext`; with an empty base this is `".hidden"` becoming `t0 + ".hidden"` |
| `FileNames.TwoDots` | src/main/java/com/example/samuraitravel/service/HouseService.java:98-100 | `a.b.ext` becomes `t0.t1.ext`: both segments before the extension are renamed |
| `Services.StoragePath` | src/main/java/com/example/samuraitravel/service/HouseService.java:37 | The path is the storage root followed by exactly the image name |
| `Services.StoragePathInjective` | src/main/java/com/example/samuraitravel/service/HouseService.java:68 | Different image names are stored at different paths |
| `FileStorage.Storage.Copy` | src/main/java/com/example/samuraitravel/service/HouseService.java:108 | The copy succeeds if and only if there is no I/O error and the target exists neither as a file nor as a directory; on success only the target changes; every attempt is recorded; no path is both a file and a directory |
| `Entities.UploadedFile.IsEmpty` | src/main/java/com/example/samuraitravel/service/HouseService.java:34 | `isEmpty()`: the upload has no content, which includes no file chosen. It is a predicate without a contract; `Create` and `Update` state what depends on it |
| `Services.StoredImageName` | src/main/java/com/example/samuraitravel/service/HouseService.java:34-39 | The image-name decision: none for an empty upload, otherwise the generated name. It has no contract of its own; the contracts of `Create` and `Update` state the new row through it |
| `Services.ImagesInAfterSave` | src/main/java/com/example/samuraitravel/service/HouseService.java:38-51 | Saving a row whose image is stored, while no file is removed, keeps every referenced image stored |
| `Services.AttemptedInAfterSave` | src/main/java/com/example/samuraitravel/service/HouseService.java:38-51 | Saving a row whose image was a copy target, while attempts are only appended, keeps every referenced image a copy target |
| `Services.HouseService.CopyImageFile` | src/main/java/com/example/samuraitravel/service/HouseService.java:106-112 | The copy is attempted at the path; a failure leaves the files unchanged and is not reported |
| `Services.HouseService.Create` | src/main/java/com/example/samuraitravel/service/HouseService.java:30-52 | A new row under the next id holds the form's seven fields; its image name is set if and only if the upload is non-empty, and then equals the generated name; exactly one copy, to the storage root plus that name, is attempted for a non-empty upload and none otherwise; other rows are untouched; the service invariant is kept; an I/O error leaves a dangling reference |
| `Services.HouseService.Update` | src/main/java/com/example/samuraitravel/service/HouseService.java:56-92 | `NotFound` if and only if the id names no house, and then no row changes; otherwise only that row changes, it gets the form's seven fields, and its image name is replaced by the generated name for a non-empty upload and kept otherwise; the copy is attempted in both outcomes; the service invariant is kept; an I/O error or an empty generated name leaves a dangling reference |
| `Services.HouseService.constructor` | src/main/java/com/example/samuraitravel/service/HouseService.java:22-24 | The service holds the given repository and storage, whose storage root is an existing directory, and starts valid |
| `Entities.HouseRepository.GetReferenceById` | src/main/java/com/example/samuraitravel/service/HouseService.java:58 | A house carrying the stored row, or `null` exactly when no row has that id |
| `Entities.HouseRepository.Save` | src/main/java/com/example/samuraitravel/service/HouseService.java:51 | A house without id gets the next id; the row under its id becomes its current fields; no other row changes |
| `Entities.House.constructor` | src/main/java/com/example/samuraitravel/service/HouseService.java:31 | A new house has no id and no image name |
| `Entities.House.Load` | src/main/java/com/example/samuraitravel/service/HouseService.java:58 | A house loaded from a row reproduces that row |

## Left out

- `UUID.randomUUID()`: randomness and uniqueness are not modelled. The tokens are a caller-supplied sequence. `FreshTokenFreshName` assumes the first tokens differ. The methods require enough tokens for the segments of the name (`EnoughTokens`).
- `Files.copy`, `MultipartFile.getInputStream` and `printStackTrace`: I/O is reduced to "copy attempted at path", and its failure is the `ioError` parameter. A partial write and the logging are not modelled.
- `Paths.get`: a path is the string concatenation of the root and the name. Path parsing and normalisation are not modelled, including separators inside the extension segment. The only directories modelled are the given set of existing ones; the storage root is one of them.
- `@Transactional` and JPA: the repository is a map, and new ids come from a counter. Rollback is reflected only in that `NotFound` saves nothing. Other persistence failures are not modelled. The `House` entity's fields beyond the eight the service sets are not part of this model.
- A `null` original file name, which would make `split` throw, and `null` form fields are not modelled. Strings are always present.
- `price` and `capacity` are unbounded integers. The service does no arithmetic on them, so the 32-bit width of Java's `Integer` does not matter.
- Validation, web routing and the serving of stored images are not part of this model.
