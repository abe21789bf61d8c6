/**
  The listing entity (`House`), the two forms the service reads, and the
  repository that persists houses, kept as a map from id to row.
 */
module Entities {
  import opened Wrappers

  /** An uploaded file as the service sees a `MultipartFile`. */
  datatype UploadedFile = UploadedFile(originalFilename: string, content: seq<bv8>) {
    /** `isEmpty()`: no file was chosen, or the chosen file has no content. */
    predicate IsEmpty() {
      |content| == 0
    }
  }

  /** The seven scalar fields a form carries and a house stores. */
  datatype HouseDetails = HouseDetails(
    name: string,
    description: string,
    price: int,
    capacity: int,
    postalCode: string,
    address: string,
    phoneNumber: string)

  /** The registration form: scalar fields and an optional image. */
  datatype HouseRegisterForm = HouseRegisterForm(
    name: string,
    description: string,
    price: int,
    capacity: int,
    postalCode: string,
    address: string,
    phoneNumber: string,
    imageFile: UploadedFile)
  {
    function Details(): HouseDetails {
      HouseDetails(name, description, price, capacity, postalCode, address, phoneNumber)
    }
  }

  /** The edit form: the id of the house to change, scalar fields and an optional image. */
  datatype HouseEditForm = HouseEditForm(
    id: int,
    name: string,
    description: string,
    price: int,
    capacity: int,
    postalCode: string,
    address: string,
    phoneNumber: string,
    imageFile: UploadedFile)
  {
    function Details(): HouseDetails {
      HouseDetails(name, description, price, capacity, postalCode, address, phoneNumber)
    }
  }

  /** A persisted row of the houses table. */
  datatype HouseRecord = HouseRecord(id: int, details: HouseDetails, imageName: Option<string>)

  /** A house entity, changed field by field through its setters. */
  class House {
    var id: Option<int>
    var name: string
    var description: string
    var price: int
    var capacity: int
    var postalCode: string
    var address: string
    var phoneNumber: string
    var imageName: Option<string>

    /** `new House()`: no id and no image yet; scalar fields start blank. */
    constructor ()
      ensures id == None && imageName == None
    {
      id := None;
      name, description, postalCode, address, phoneNumber := [], [], [], [], [];
      price, capacity := 0, 0;
      imageName := None;
    }

    /** A managed house loaded from its row. */
    constructor Load(row: HouseRecord)
      ensures id == Some(row.id) && Row() == row
    {
      id := Some(row.id);
      name, description := row.details.name, row.details.description;
      price, capacity := row.details.price, row.details.capacity;
      postalCode, address := row.details.postalCode, row.details.address;
      phoneNumber := row.details.phoneNumber;
      imageName := row.imageName;
    }

    function Details(): HouseDetails
      reads this
    {
      HouseDetails(name, description, price, capacity, postalCode, address, phoneNumber)
    }

    /** The row this house is persisted as, once it has an id. */
    function Row(): HouseRecord
      reads this
      requires id.Some?
    {
      HouseRecord(id.value, Details(), imageName)
    }
  }

  /** Houses by id; ids are handed out in increasing order by the persistence layer. */
  class HouseRepository {
    var rows: map<int, HouseRecord>
    var nextId: int

    /** Each row is filed under its own id, and every id in use is below the next one. */
    ghost predicate Valid()
      reads this
    {
      forall id :: id in rows ==> rows[id].id == id && id < nextId
    }

    constructor ()
      ensures Valid() && rows == map[]
    {
      rows := map[];
      nextId := 1;
    }

    /**
      `getReferenceById(id)`: the house stored under `id`, or `null` where the
      lazy reference would fail when first used.
     */
    method GetReferenceById(id: int) returns (house: House?)
      requires Valid()
      ensures house == null <==> id !in rows
      ensures house != null ==> fresh(house) && house.id == Some(id) && house.Row() == rows[id]
    {
      if id in rows {
        house := new House.Load(rows[id]);
      } else {
        house := null;
      }
    }

    /**
      `save(house)`: a house without id gets the next one; the row under the
      house's id becomes the house's current fields. No other row changes.
     */
    method Save(house: House)
      requires Valid()
      modifies this, house`id
      ensures Valid()
      ensures old(house.id) == None ==> house.id == Some(old(nextId)) && nextId == old(nextId) + 1
      ensures old(house.id) != None ==> house.id == old(house.id)
      ensures old(house.id) != None && old(house.id).value < old(nextId) ==> nextId == old(nextId)
      ensures house.id.Some? && rows == old(rows)[house.id.value := house.Row()]
    {
      if house.id == None {
        house.id := Some(nextId);
        nextId := nextId + 1;
      } else if house.id.value >= nextId {
        nextId := house.id.value + 1;
      }
      rows := rows[house.id.value := house.Row()];
    }
  }
}
