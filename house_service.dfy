/**
  HouseService: registers and edits house listings. An uploaded image is
  copied under the storage root with a collision-resistant name, and the
  house refers to it by that name.
 */
module Services {
  import opened Wrappers
  import opened FileNames
  import opened Entities
  import opened FileStorage

  /** The directory uploaded images are copied into. */
  const StorageRoot: string := "src/main/resources/static/storage/"

  /** Where an image of the given name is stored. */
  function StoragePath(imageName: string): (path: string)
    ensures |path| == |StorageRoot| + |imageName|
    ensures path[..|StorageRoot|] == StorageRoot && path[|StorageRoot|..] == imageName
  {
    StorageRoot + imageName
  }

  /** Distinct image names are stored at distinct paths. */
  lemma StoragePathInjective(a: string, b: string)
    requires StoragePath(a) == StoragePath(b)
    ensures a == b
  {
  }

  /** How an edit ended: saved, or the id named no house. */
  datatype UpdateOutcome = Updated | NotFound

  /** The name under which a non-empty upload is stored, given the fresh tokens. */
  function StoredImageName(imageFile: UploadedFile, tokens: seq<string>): Option<string>
    requires !imageFile.IsEmpty() ==> EnoughTokens(imageFile.originalFilename, tokens)
  {
    if imageFile.IsEmpty() then None else Some(NewFileName(imageFile.originalFilename, tokens))
  }

  /** Every image a row refers to is one of `files`. */
  ghost predicate ImagesIn(rows: map<int, HouseRecord>, files: map<string, seq<bv8>>) {
    forall id :: id in rows && rows[id].imageName.Some? ==> StoragePath(rows[id].imageName.value) in files
  }

  /**
    Saving a row whose image is stored, while no file is removed, keeps
    every image of every row stored.
   */
  lemma ImagesInAfterSave(rows: map<int, HouseRecord>, files: map<string, seq<bv8>>,
                          files': map<string, seq<bv8>>, id: int, row: HouseRecord)
    requires ImagesIn(rows, files)
    requires files.Keys <= files'.Keys
    requires row.imageName.Some? ==> StoragePath(row.imageName.value) in files'
    ensures ImagesIn(rows[id := row], files')
  {
  }

  /** Every image a row refers to was the target of one of `attempts`. */
  ghost predicate AttemptedIn(rows: map<int, HouseRecord>, attempts: seq<string>) {
    forall id :: id in rows && rows[id].imageName.Some? ==> StoragePath(rows[id].imageName.value) in attempts
  }

  /**
    Saving a row whose image was a copy target, while attempts are only
    appended, keeps every image of every row a copy target.
   */
  lemma AttemptedInAfterSave(rows: map<int, HouseRecord>, attempts: seq<string>,
                             attempts': seq<string>, id: int, row: HouseRecord)
    requires AttemptedIn(rows, attempts)
    requires attempts <= attempts'
    requires row.imageName.Some? ==> StoragePath(row.imageName.value) in attempts'
    ensures AttemptedIn(rows[id := row], attempts')
  {
  }

  class HouseService {
    const houseRepository: HouseRepository
    /** The file system the service copies images into. */
    const storage: Storage

    /**
      The repository and the storage are consistent, the storage root is an
      existing directory, and every image a house refers to was the target
      of a copy: a copy may have failed, so the file itself need not exist
      (see ImagesStored).
     */
    ghost predicate Valid()
      reads this, houseRepository, storage
    {
      && houseRepository.Valid()
      && storage.Valid()
      && StorageRoot in storage.directories
      && ImagesAttempted()
    }

    ghost predicate ImagesAttempted()
      reads this, houseRepository, storage
    {
      AttemptedIn(houseRepository.rows, storage.attempts)
    }

    /** Every image a house refers to exists in storage. */
    ghost predicate ImagesStored()
      reads this, houseRepository, storage
    {
      ImagesIn(houseRepository.rows, storage.files)
    }

    constructor (houseRepository: HouseRepository, storage: Storage)
      requires houseRepository.Valid()
      requires storage.Valid() && StorageRoot in storage.directories
      requires forall id :: id in houseRepository.rows && houseRepository.rows[id].imageName.Some? ==>
                 StoragePath(houseRepository.rows[id].imageName.value) in storage.attempts
      ensures this.houseRepository == houseRepository && this.storage == storage
      ensures Valid()
    {
      this.houseRepository := houseRepository;
      this.storage := storage;
    }

    /**
      `generateNewFileName`: split the name on `.`, overwrite every segment
      but the last with the next fresh token, and join again with `.`.
     */
    method GenerateNewFileName(fileName: string, tokens: seq<string>) returns (hashedFileName: string)
      requires EnoughTokens(fileName, tokens)
      ensures hashedFileName == NewFileName(fileName, tokens)
    {
      var segments := JavaSplit(fileName);
      var fileNames := new string[|segments|](k requires 0 <= k < |segments| => segments[k]);
      var i := 0;
      while i < fileNames.Length - 1
        invariant 0 <= i <= if fileNames.Length == 0 then 0 else fileNames.Length - 1
        invariant forall k :: 0 <= k < i ==> fileNames[k] == tokens[k]
        invariant forall k :: i <= k < fileNames.Length ==> fileNames[k] == segments[k]
      {
        fileNames[i] := tokens[i];
        i := i + 1;
      }
      assert fileNames[..] == Renamed(segments, tokens);
      hashedFileName := Join(fileNames[..]);
    }

    /** `copyImageFile`: attempt the copy; a failure is swallowed. */
    method CopyImageFile(imageFile: UploadedFile, filePath: string, ioError: bool)
      requires storage.Valid()
      modifies storage
      ensures storage.Valid()
      ensures storage.attempts == old(storage.attempts) + [filePath]
      ensures storage.files ==
                if !ioError && filePath !in old(storage.files) && filePath !in storage.directories
                then old(storage.files)[filePath := imageFile.content]
                else old(storage.files)
    {
      var _ := storage.Copy(imageFile.content, filePath, ioError);
    }

    /**
      `create`: a new house with the form's fields, saved under the next id.
      A non-empty upload is copied to its generated name first and the house
      refers to that name, whether or not the copy succeeded.
     */
    method Create(form: HouseRegisterForm, tokens: seq<string>, ioError: bool)
      requires Valid()
      requires !form.imageFile.IsEmpty() ==> EnoughTokens(form.imageFile.originalFilename, tokens)
      modifies houseRepository, storage
      ensures Valid()
      ensures houseRepository.nextId == old(houseRepository.nextId) + 1
      ensures var id := old(houseRepository.nextId);
              && id !in old(houseRepository.rows)
              && houseRepository.rows ==
                   old(houseRepository.rows)[id := HouseRecord(id, form.Details(), StoredImageName(form.imageFile, tokens))]
      ensures form.imageFile.IsEmpty() ==> storage.attempts == old(storage.attempts) && storage.files == old(storage.files)
      ensures !form.imageFile.IsEmpty() ==>
                var path := StoragePath(NewFileName(form.imageFile.originalFilename, tokens));
                && storage.attempts == old(storage.attempts) + [path]
                && storage.files ==
                     if !ioError && path !in old(storage.files) && path !in storage.directories
                     then old(storage.files)[path := form.imageFile.content]
                     else old(storage.files)
      ensures !ioError && old(ImagesStored()) &&
              (!form.imageFile.IsEmpty() ==>
                 StoragePath(NewFileName(form.imageFile.originalFilename, tokens)) !in storage.directories) ==>
                ImagesStored()
      ensures !form.imageFile.IsEmpty() && ioError &&
              StoragePath(NewFileName(form.imageFile.originalFilename, tokens)) !in old(storage.files) ==>
                !ImagesStored()
      ensures !form.imageFile.IsEmpty() && NewFileName(form.imageFile.originalFilename, tokens) == [] ==>
                !ImagesStored()
    {
      var house := new House();
      var imageFile := form.imageFile;

      if !imageFile.IsEmpty() {
        var imageName := imageFile.originalFilename;
        var hashedImageName := GenerateNewFileName(imageName, tokens);
        var filePath := StoragePath(hashedImageName);
        CopyImageFile(imageFile, filePath, ioError);
        house.imageName := Some(hashedImageName);
      }

      house.name := form.name;
      house.description := form.description;
      house.price := form.price;
      house.capacity := form.capacity;
      house.postalCode := form.postalCode;
      house.address := form.address;
      house.phoneNumber := form.phoneNumber;

      houseRepository.Save(house);
      ghost var id := old(houseRepository.nextId);
      AttemptedInAfterSave(old(houseRepository.rows), old(storage.attempts), storage.attempts, id, houseRepository.rows[id]);
      if !imageFile.IsEmpty() && NewFileName(imageFile.originalFilename, tokens) == [] {
        // the generated name is empty: the house refers to the storage root itself
        assert StoragePath([]) == StorageRoot;
        assert houseRepository.rows[id].imageName == Some([]);
      }
      if && !ioError && old(ImagesStored())
         && (!imageFile.IsEmpty() ==> StoragePath(NewFileName(imageFile.originalFilename, tokens)) !in storage.directories)
      {
        ImagesInAfterSave(old(houseRepository.rows), old(storage.files), storage.files, id, houseRepository.rows[id]);
      }
    }

    /**
      `update`: the house under the form's id gets the form's fields, and a
      new image when a non-empty one is uploaded; otherwise its image is
      kept. The copy happens before the house is first touched, so an
      unknown id still leaves the copied file behind.
     */
    method Update(form: HouseEditForm, tokens: seq<string>, ioError: bool) returns (outcome: UpdateOutcome)
      requires Valid()
      requires !form.imageFile.IsEmpty() ==> EnoughTokens(form.imageFile.originalFilename, tokens)
      modifies houseRepository, storage
      ensures Valid()
      ensures outcome == NotFound <==> form.id !in old(houseRepository.rows)
      ensures houseRepository.nextId == old(houseRepository.nextId)
      ensures outcome == NotFound ==> houseRepository.rows == old(houseRepository.rows)
      ensures outcome == Updated ==>
                var id := form.id;
                var imageName := if form.imageFile.IsEmpty() then old(houseRepository.rows)[id].imageName
                                 else StoredImageName(form.imageFile, tokens);
                houseRepository.rows == old(houseRepository.rows)[id := HouseRecord(id, form.Details(), imageName)]
      ensures form.imageFile.IsEmpty() ==> storage.attempts == old(storage.attempts) && storage.files == old(storage.files)
      ensures !form.imageFile.IsEmpty() ==>
                var path := StoragePath(NewFileName(form.imageFile.originalFilename, tokens));
                && storage.attempts == old(storage.attempts) + [path]
                && storage.files ==
                     if !ioError && path !in old(storage.files) && path !in storage.directories
                     then old(storage.files)[path := form.imageFile.content]
                     else old(storage.files)
      ensures !ioError && old(ImagesStored()) &&
              (!form.imageFile.IsEmpty() ==>
                 StoragePath(NewFileName(form.imageFile.originalFilename, tokens)) !in storage.directories) ==>
                ImagesStored()
      ensures outcome == Updated && !form.imageFile.IsEmpty() && ioError &&
              StoragePath(NewFileName(form.imageFile.originalFilename, tokens)) !in old(storage.files) ==>
                !ImagesStored()
      ensures outcome == Updated && !form.imageFile.IsEmpty() &&
              NewFileName(form.imageFile.originalFilename, tokens) == [] ==>
                !ImagesStored()
    {
      var house := houseRepository.GetReferenceById(form.id);
      var imageFile := form.imageFile;

      if !imageFile.IsEmpty() {
        var imageName := imageFile.originalFilename;
        var hashedImageName := GenerateNewFileName(imageName, tokens);
        var filePath := StoragePath(hashedImageName);
        CopyImageFile(imageFile, filePath, ioError);
        if house == null {
          // the lazy reference fails at its first use
          return NotFound;
        }
        house.imageName := Some(hashedImageName);
      }
      if house == null {
        return NotFound;
      }

      house.name := form.name;
      house.description := form.description;
      house.price := form.price;
      house.capacity := form.capacity;
      house.postalCode := form.postalCode;
      house.address := form.address;
      house.phoneNumber := form.phoneNumber;

      houseRepository.Save(house);
      outcome := Updated;
      AttemptedInAfterSave(old(houseRepository.rows), old(storage.attempts), storage.attempts, form.id, houseRepository.rows[form.id]);
      if !imageFile.IsEmpty() && NewFileName(imageFile.originalFilename, tokens) == [] {
        assert StoragePath([]) == StorageRoot;
        assert houseRepository.rows[form.id].imageName == Some([]);
      }
      if && !ioError && old(ImagesStored())
         && (!imageFile.IsEmpty() ==> StoragePath(NewFileName(imageFile.originalFilename, tokens)) !in storage.directories)
      {
        ImagesInAfterSave(old(houseRepository.rows), old(storage.files), storage.files, form.id, houseRepository.rows[form.id]);
      }
    }
  }
}
