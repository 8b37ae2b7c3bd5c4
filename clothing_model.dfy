/** The ClothingItem document of the database schema. */
module ClothingModel {
  import opened Common

  /** The values the schema's `category` enum admits. */
  datatype Category = SHIRT | PANTS | SHOES | JACKET | ACCESSORY | OTHER

  function CategoryName(c: Category): string {
    match c
    case SHIRT => "SHIRT"
    case PANTS => "PANTS"
    case SHOES => "SHOES"
    case JACKET => "JACKET"
    case ACCESSORY => "ACCESSORY"
    case OTHER => "OTHER"
  }

  /** The enum validator: a stored string is a category exactly when it spells
      one of the six names, in upper case. */
  function ParseCategory(s: string): (r: Option<Category>)
    ensures r.Some? ==> CategoryName(r.value) == s
    ensures r.None? ==> forall c: Category :: CategoryName(c) != s
  {
    if s == "SHIRT" then Some(SHIRT)
    else if s == "PANTS" then Some(PANTS)
    else if s == "SHOES" then Some(SHOES)
    else if s == "JACKET" then Some(JACKET)
    else if s == "ACCESSORY" then Some(ACCESSORY)
    else if s == "OTHER" then Some(OTHER)
    else None
  }

  lemma ParseCategoryName(c: Category)
    ensures ParseCategory(CategoryName(c)) == Some(c)
  {
  }

  /** A stored clothing item. `category` holds the string that was written,
      because an update does not run the enum validator; `brand` and `imageUrl`
      are optional; `owner` references the User who created the item. */
  datatype ClothingItem = ClothingItem(
    id: ObjectId,
    name: string,
    category: string,
    color: string,
    brand: Option<string>,
    imageUrl: Option<string>,
    owner: ObjectId)

  /** The schema's validators: name, category and color are required (a required
      string must not be empty) and category is one of the enum values. brand,
      imageUrl and owner carry no validator beyond their type. */
  predicate Conforms(item: ClothingItem)
    ensures Conforms(item) <==>
      item.name != "" && item.color != "" && exists c: Category :: CategoryName(c) == item.category
  {
    var c := ParseCategory(item.category);
    assert c.Some? ==> CategoryName(c.value) == item.category;
    item.name != "" && item.color != "" && c.Some?
  }

  /** The category check is case-sensitive: "Pants" is not a category. */
  lemma CategoryIsCaseSensitive()
    ensures ParseCategory("PANTS") == Some(PANTS)
    ensures ParseCategory("Pants") == None
  {
  }
}
