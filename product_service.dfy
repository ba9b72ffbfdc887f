/** ProductService: the product table and its image references. Object storage is the
    ghost map `objects` from object key to image bytes; the image URL is not stored but
    computed from the reference whenever a product is handed out. */
module ProductService {
  import opened Common
  import opened Text
  import opened ImageStorage

  /** The thirteen writable product fields besides the line. */
  datatype ProductFields = ProductFields(
    name: Option<string>,
    description: Option<string>,
    lifecycle: Option<string>,
    assortment: Option<string>,
    buyPlan: Option<string>,
    storeCost: Option<int>,
    retailCost: Option<int>,
    margin: Option<int>,
    buyer: Option<string>,
    setWeek: Option<int>,
    inspiration: Option<string>,
    price: Option<int>,
    quantity: int)

  datatype Product = Product(fields: ProductFields, line: Id, imageReference: Option<string>)

  /** The payload of create and update: the entity as the client sent it. The line reference
      and the image reference may be absent; create keeps a given image reference, update
      ignores it. */
  datatype ProductRequest = ProductRequest(fields: ProductFields, line: Option<Id>, imageReference: Option<string>)

  /** A product as the service returns it, with its image URL filled in. */
  datatype ProductView = ProductView(id: Id, product: Product, imageUrl: Option<string>)

  /** enrichWithImageUrl. */
  function Enriched(config: StorageConfig, id: Id, p: Product): ProductView
  {
    ProductView(id, p, ImageUrl(config, p.imageReference))
  }

  /** The answer of an operation that hands out a product. */
  function EnrichedOutcome(config: StorageConfig, id: Id, o: Outcome<Product>): (r: Outcome<ProductView>)
    ensures r.Ok? <==> o.Ok?
    ensures r.NotFound? <==> o.NotFound?
    ensures r.InvalidArgument? <==> o.InvalidArgument?
    ensures r.Conflict? <==> o.Conflict?
    ensures r.Ok? ==> r.value == Enriched(config, id, o.value)
  {
    match o
    case Ok(p) => Ok(Enriched(config, id, p))
    case NotFound => NotFound
    case InvalidArgument => InvalidArgument
    case Conflict => Conflict
  }

  /** create: a non-blank name, a line reference, and a line that exists; every failure is
      InvalidArgument. Only the id and the line are reset, so an image reference sent with
      the payload is stored as it is. */
  function CreateOutcome(lines: set<Id>, req: Option<ProductRequest>): (r: Outcome<Product>)
    ensures r.Ok? || r.InvalidArgument?
    ensures r.Ok? <==> req.Some? && !NullOrBlank(req.value.fields.name) && req.value.line.Some?
                       && req.value.line.value in lines
    ensures r.Ok? ==> r.value.fields == req.value.fields && r.value.line == req.value.line.value
                      && r.value.imageReference == req.value.imageReference
  {
    if req.None? || NullOrBlank(req.value.fields.name) then InvalidArgument
    else if req.value.line.None? then InvalidArgument
    else if req.value.line.value !in lines then InvalidArgument
    else Ok(Product(req.value.fields, req.value.line.value, req.value.imageReference))
  }

  /** update: the payload and line-reference checks come first, then the lookup (a missing
      product gives NotFound, the service's null), then the line lookup. The name is not
      checked again, and the image reference is kept. */
  function UpdateOutcome(products: map<Id, Product>, lines: set<Id>, id: Id, req: Option<ProductRequest>)
    : (r: Outcome<Product>)
    ensures !r.Conflict?
    ensures r.NotFound? <==> req.Some? && req.value.line.Some? && id !in products
    ensures r.InvalidArgument? <==>
      (req.None? || req.value.line.None? || (id in products && req.value.line.value !in lines))
    ensures r.Ok? ==> id in products && r.value.fields == req.value.fields && r.value.line == req.value.line.value
                      && r.value.imageReference == products[id].imageReference
  {
    if req.None? then InvalidArgument
    else if req.value.line.None? then InvalidArgument
    else if id !in products then NotFound
    else if req.value.line.value !in lines then InvalidArgument
    else Ok(products[id].(fields := req.value.fields, line := req.value.line.value))
  }

  /** In the service bodies, unlike create, update lets a missing name through. */
  lemma UpdateKeepsNoNameRule(products: map<Id, Product>, lines: set<Id>, id: Id, fields: ProductFields, line: Id,
                              reference: Option<string>)
    requires id in products && line in lines
    ensures CreateOutcome(lines, Some(ProductRequest(fields.(name := None), Some(line), reference))).InvalidArgument?
    ensures UpdateOutcome(products, lines, id, Some(ProductRequest(fields.(name := None), Some(line), reference))).Ok?
  {
  }

  /** A created product's URL is that of the reference it was sent with. */
  lemma CreatedImageUrl(config: StorageConfig, lines: set<Id>, id: Id, req: Option<ProductRequest>)
    requires CreateOutcome(lines, req).Ok?
    ensures Enriched(config, id, CreateOutcome(lines, req).value).imageUrl == ImageUrl(config, req.value.imageReference)
    ensures req.value.imageReference.None? ==> Enriched(config, id, CreateOutcome(lines, req).value).imageUrl.None?
  {
  }

  /** A usable image payload: present and not empty. */
  predicate HasBytes(bytes: Option<seq<Byte>>)
  {
    bytes.Some? && |bytes.value| > 0
  }

  /** addImage (`replace` false) and updateImage (`replace` true): the product must exist;
      addImage refuses a product that has an image; the bytes must be there. The new
      reference is the product's object key. */
  function SaveOutcome(products: map<Id, Product>, id: Id, bytes: Option<seq<Byte>>, replace: bool)
    : (r: Outcome<Product>)
    ensures !r.Conflict?
    ensures r.NotFound? <==> id !in products
    ensures r.InvalidArgument? <==>
      (id in products && ((!replace && !NullOrBlank(products[id].imageReference)) || !HasBytes(bytes)))
    ensures r.Ok? ==> r.value == products[id].(imageReference := Some(ObjectKey(id)))
  {
    if id !in products then NotFound
    else if !replace && !NullOrBlank(products[id].imageReference) then InvalidArgument
    else if !HasBytes(bytes) then InvalidArgument
    else Ok(products[id].(imageReference := Some(ObjectKey(id))))
  }

  /** deleteByReference: a null or blank reference is left alone. */
  ghost function WithoutObject(objects: map<string, seq<Byte>>, reference: Option<string>)
    : (r: map<string, seq<Byte>>)
    ensures NullOrBlank(reference) ==> r == objects
    ensures !NullOrBlank(reference) ==> reference.value !in r
    ensures forall k | k in r :: k in objects && r[k] == objects[k]
    ensures forall k | k in objects && (NullOrBlank(reference) || k != reference.value) :: k in r
  {
    if NullOrBlank(reference) then objects else objects - {reference.value}
  }

  /** The storage after saving an image: the old object gone, then the bytes under the
      product's key. */
  ghost function StoredImage(objects: map<string, seq<Byte>>, old_reference: Option<string>, id: Id, bytes: seq<Byte>)
    : (r: map<string, seq<Byte>>)
    ensures ObjectKey(id) in r && r[ObjectKey(id)] == bytes
    ensures !NullOrBlank(old_reference) && old_reference.value != ObjectKey(id) ==> old_reference.value !in r
    ensures forall k | k in objects && k != ObjectKey(id) && (NullOrBlank(old_reference) || k != old_reference.value)
              :: k in r && r[k] == objects[k]
    ensures forall k | k in r && k != ObjectKey(id) :: k in objects
  {
    WithoutObject(objects, old_reference)[ObjectKey(id) := bytes]
  }

  /** The product's reference is empty or names the object its own uploads are stored under. */
  predicate OwnsItsImage(id: Id, p: Product)
  {
    NullOrBlank(p.imageReference) || p.imageReference == Some(ObjectKey(id))
  }

  /** Removing the image of a product that owns its image (as every upload leaves it) keeps
      every other product's uploaded image in place. */
  lemma OtherImagesSurvive(objects: map<string, seq<Byte>>, a: Id, p: Product, b: Id)
    requires a < Pow16(32) && b < Pow16(32) && a != b
    requires OwnsItsImage(a, p)
    requires ObjectKey(b) in objects
    ensures ObjectKey(b) in WithoutObject(objects, p.imageReference)
    ensures WithoutObject(objects, p.imageReference)[ObjectKey(b)] == objects[ObjectKey(b)]
  {
    if !NullOrBlank(p.imageReference) {
      ObjectKeyInjective(a, b);
    }
  }

  /** Every upload leaves the product owning its image. */
  lemma SaveOwnsImage(products: map<Id, Product>, id: Id, bytes: Option<seq<Byte>>, replace: bool)
    requires SaveOutcome(products, id, bytes, replace).Ok?
    ensures OwnsItsImage(id, SaveOutcome(products, id, bytes, replace).value)
  {
  }

  /** A reference sent with create may name another product's object: removing the new
      product's image, or deleting the product, then deletes that other product's image. */
  lemma ForeignReferenceRemovesOtherImage(objects: map<string, seq<Byte>>, lines: set<Id>, fields: ProductFields,
                                          line: Id, b: Id)
    requires line in lines && !NullOrBlank(fields.name)
    requires ObjectKey(b) in objects
    ensures var created := CreateOutcome(lines, Some(ProductRequest(fields, Some(line), Some(ObjectKey(b)))));
      && created.Ok?
      && ObjectKey(b) !in WithoutObject(objects, created.value.imageReference)
  {
    assert ObjectKey(b)[0] == 'p';
  }

  /** After a save the product's URL is the storage prefix followed by its object key. */
  lemma SavedImageUrl(config: StorageConfig, products: map<Id, Product>, id: Id, bytes: Option<seq<Byte>>,
                      replace: bool)
    requires SaveOutcome(products, id, bytes, replace).Ok?
    ensures Enriched(config, id, SaveOutcome(products, id, bytes, replace).value).imageUrl
         == Some(UrlPrefix(config) + ObjectKey(id))
  {
    ImageUrlOfObjectKey(config, id);
  }

  /** The product table, the storage bucket's configuration and its contents. */
  class ProductCatalog {
    const config: StorageConfig
    var products: map<Id, Product>
    var nextId: nat
    ghost var objects: map<string, seq<Byte>>

    /** Every id was issued. */
    ghost predicate Valid()
      reads this
    {
      forall id | id in products :: id < nextId
    }

    constructor (config: StorageConfig)
      ensures Valid() && this.config == config && products == map[] && nextId == 0 && objects == map[]
    {
      this.config := config;
      products := map[];
      nextId := 0;
      objects := map[];
    }

    method Create(lines: set<Id>, req: Option<ProductRequest>) returns (r: Outcome<ProductView>)
      requires Valid()
      modifies this
      ensures Valid()
      ensures r.Ok? <==> CreateOutcome(lines, req).Ok?
      ensures !r.Ok? ==> r.InvalidArgument? && products == old(products) && nextId == old(nextId)
      ensures r.Ok? ==>
        (r.value == Enriched(config, old(nextId), CreateOutcome(lines, req).value)
         && r.value.imageUrl == ImageUrl(config, req.value.imageReference)
         && products == old(products)[old(nextId) := CreateOutcome(lines, req).value]
         && nextId == old(nextId) + 1)
      ensures objects == old(objects)
    {
      if req.None? || req.value.fields.name.None? || IsBlank(req.value.fields.name.value) {
        return InvalidArgument;
      }
      if req.value.line.None? {
        return InvalidArgument;
      }
      var line := req.value.line.value;
      if line !in lines {
        return InvalidArgument;
      }
      var p := Product(req.value.fields, line, req.value.imageReference);
      products := products[nextId := p];
      r := Ok(Enriched(config, nextId, p));
      nextId := nextId + 1;
    }

    method Update(lines: set<Id>, id: Id, req: Option<ProductRequest>) returns (r: Outcome<ProductView>)
      requires Valid()
      modifies this
      ensures Valid()
      ensures r == EnrichedOutcome(config, id, UpdateOutcome(old(products), lines, id, req))
      ensures r.Ok? ==> products == old(products)[id := r.value.product]
      ensures !r.Ok? ==> products == old(products)
      ensures nextId == old(nextId) && objects == old(objects)
    {
      if req.None? {
        return InvalidArgument;
      }
      if req.value.line.None? {
        return InvalidArgument;
      }
      if id !in products {
        return NotFound;
      }
      var line := req.value.line.value;
      if line !in lines {
        return InvalidArgument;
      }
      var existing := products[id].(fields := req.value.fields, line := line);
      products := products[id := existing];
      r := Ok(Enriched(config, id, existing));
    }

    /** saveImageReference: delete the old object, store the new one, record its key. */
    method SaveImageReference(id: Id, bytes: Option<seq<Byte>>) returns (r: Outcome<ProductView>)
      requires Valid() && id in products
      modifies this
      ensures Valid()
      ensures r == EnrichedOutcome(config, id, SaveOutcome(old(products), id, bytes, true))
      ensures r.Ok? ==> products == old(products)[id := r.value.product]
                        && objects == StoredImage(old(objects), old(products)[id].imageReference, id, bytes.value)
      ensures !r.Ok? ==> products == old(products) && objects == old(objects)
      ensures nextId == old(nextId)
    {
      if bytes.None? || |bytes.value| == 0 {
        return InvalidArgument;
      }
      var product := products[id];
      if product.imageReference.Some? && !IsBlank(product.imageReference.value) {
        objects := objects - {product.imageReference.value};
      }
      var key := ObjectKey(id);
      objects := objects[key := bytes.value];
      product := product.(imageReference := Some(key));
      products := products[id := product];
      r := Ok(Enriched(config, id, product));
    }

    method AddImage(id: Id, bytes: Option<seq<Byte>>) returns (r: Outcome<ProductView>)
      requires Valid()
      modifies this
      ensures Valid()
      ensures r == EnrichedOutcome(config, id, SaveOutcome(old(products), id, bytes, false))
      ensures r.Ok? ==> products == old(products)[id := r.value.product]
                        && objects == StoredImage(old(objects), old(products)[id].imageReference, id, bytes.value)
      ensures !r.Ok? ==> products == old(products) && objects == old(objects)
      ensures nextId == old(nextId)
    {
      if id !in products {
        return NotFound;
      }
      var reference := products[id].imageReference;
      if reference.Some? && !IsBlank(reference.value) {
        return InvalidArgument;
      }
      r := SaveImageReference(id, bytes);
    }

    method UpdateImage(id: Id, bytes: Option<seq<Byte>>) returns (r: Outcome<ProductView>)
      requires Valid()
      modifies this
      ensures Valid()
      ensures r == EnrichedOutcome(config, id, SaveOutcome(old(products), id, bytes, true))
      ensures r.Ok? ==> products == old(products)[id := r.value.product]
                        && objects == StoredImage(old(objects), old(products)[id].imageReference, id, bytes.value)
      ensures !r.Ok? ==> products == old(products) && objects == old(objects)
      ensures nextId == old(nextId)
    {
      if id !in products {
        return NotFound;
      }
      r := SaveImageReference(id, bytes);
    }

    /** removeImage: NotFound for a missing product, false when it has no image, otherwise
        the object is deleted and the reference (and with it the URL) cleared. */
    method RemoveImage(id: Id) returns (r: Outcome<bool>)
      requires Valid()
      modifies this
      ensures Valid()
      ensures r.NotFound? <==> id !in old(products)
      ensures r.Ok? || r.NotFound?
      ensures r == Ok(false) ==> NullOrBlank(old(products)[id].imageReference)
      ensures r.Ok? ==> (r.value <==> !NullOrBlank(old(products)[id].imageReference))
      ensures r == Ok(true) ==>
        (products == old(products)[id := old(products)[id].(imageReference := None)]
         && Enriched(config, id, products[id]).imageUrl.None?
         && objects == WithoutObject(old(objects), old(products)[id].imageReference))
      ensures r != Ok(true) ==> products == old(products) && objects == old(objects)
      ensures nextId == old(nextId)
    {
      if id !in products {
        return NotFound;
      }
      var product := products[id];
      if product.imageReference.None? || IsBlank(product.imageReference.value) {
        return Ok(false);
      }
      objects := objects - {product.imageReference.value};
      product := product.(imageReference := None);
      products := products[id := product];
      r := Ok(true);
    }

    /** delete: false for a missing product; otherwise its image is deleted with it. */
    method Delete(id: Id) returns (deleted: bool)
      requires Valid()
      modifies this
      ensures Valid()
      ensures deleted <==> id in old(products)
      ensures deleted ==> products == old(products) - {id}
                          && objects == WithoutObject(old(objects), old(products)[id].imageReference)
      ensures !deleted ==> products == old(products) && objects == old(objects)
      ensures nextId == old(nextId)
    {
      if id !in products {
        return false;
      }
      var reference := products[id].imageReference;
      if reference.Some? && !IsBlank(reference.value) {
        objects := objects - {reference.value};
      }
      products := products - {id};
      deleted := true;
    }
  }
}
