/**
 * The product catalogue of backend/routes/productsRoutes.js and
 * backend/controllers/productsController.js: image-path normalisation, the
 * stock flag, the required-field checks of the add and edit forms, and the
 * two spreadsheet imports.
 *
 * Form fields and spreadsheet cells are untyped in the source; a Cell says
 * which JavaScript value a field held, so that `||` and `!` keep their
 * meaning. The files under uploads/ are the parameter `onDisk`, as paths
 * relative to that directory.
 */
module Catalog {
  import opened Text
  import opened Http
  import opened Seqs

  /** A form field or a spreadsheet cell: missing (undefined or null), a string, a number or a boolean. */
  datatype Cell = Blank | Str(s: string) | Num(n: int) | Bool(b: bool)

  /** JavaScript truthiness of a cell. */
  predicate Truthy(c: Cell)
  {
    match c
    case Blank => false
    case Str(s) => s != ""
    case Num(n) => n != 0
    case Bool(b) => b
  }

  /** `c || null`. */
  function CellOrNull(c: Cell): (r: Cell)
    ensures Truthy(c) ==> r == c
    ensures !Truthy(c) ==> r == Blank
  {
    if Truthy(c) then c else Blank
  }

  // ---------------------------------------------------------------- formatImageUrl

  const UploadsBase: string := "http://localhost:5000/uploads/"

  /** The extensions tried, in order, for a stored path without one. */
  const Candidates: seq<string> := [".png", ".jpg", ".jpeg", ".webp", ".gif"]

  /** `/\.(jpg|jpeg|png|gif|webp)$/i`. */
  predicate HasImageExtension(p: string)
  {
    var l := ToLower(p);
    EndsWith(l, ".jpg") || EndsWith(l, ".jpeg") || EndsWith(l, ".png") || EndsWith(l, ".gif") || EndsWith(l, ".webp")
  }

  /** Backslashes become '/', then one leading "uploads/" is removed. */
  function CleanPath(p: string): (r: string)
    ensures var f := ReplaceChar(p, '\\', '/');
            if StartsWith(f, "uploads/") then r == f[8..] else r == f
    ensures forall i :: 0 <= i < |r| ==> r[i] != '\\'
  {
    var f := ReplaceChar(p, '\\', '/');
    if StartsWith(f, "uploads/") then f[8..] else f
  }

  /** Lower-casing leaves a suffix without capital letters in place. */
  lemma LowerKeepsSuffix(c: string, e: string)
    requires forall i :: 0 <= i < |e| ==> !('A' <= e[i] <= 'Z')
    ensures EndsWith(ToLower(c + e), e)
  {
    ToLowerAppend(c, e);
    var l := ToLower(c + e);
    assert l[|l| - |e|..] == ToLower(e);
  }

  /** Appending any candidate extension gives a path the extension test recognises. */
  lemma CandidateRecognised(c: string, k: nat)
    requires k < |Candidates|
    ensures HasImageExtension(c + Candidates[k])
  {
    var e := Candidates[k];
    LowerKeepsSuffix(c, e);
    if k == 0 {
      assert EndsWith(ToLower(c + e), ".png");
    } else if k == 1 {
      assert EndsWith(ToLower(c + e), ".jpg");
    } else if k == 2 {
      assert EndsWith(ToLower(c + e), ".jpeg");
    } else if k == 3 {
      assert EndsWith(ToLower(c + e), ".webp");
    } else {
      assert EndsWith(ToLower(c + e), ".gif");
    }
  }

  /**
   * formatImageUrl: null for a missing path, an http(s) URL unchanged, and
   * otherwise the cleaned path under the uploads URL. A cleaned path without a
   * recognised extension gets the first candidate that exists on disk, or
   * ".png" when none does, so every uploads URL ends in a recognised extension.
   */
  method FormatImageUrl(imagePath: string, onDisk: set<string>) returns (r: Option<string>)
    ensures imagePath == "" <==> r.None?
    ensures imagePath != "" && StartsWith(imagePath, "http") ==> r == Some(imagePath)
    ensures imagePath != "" && !StartsWith(imagePath, "http") ==>
              r.Some? && StartsWith(r.value, UploadsBase + CleanPath(imagePath)) &&
              HasImageExtension(r.value)
    ensures imagePath != "" && !StartsWith(imagePath, "http") && HasImageExtension(CleanPath(imagePath)) ==>
              r == Some(UploadsBase + CleanPath(imagePath))
    ensures imagePath != "" && !StartsWith(imagePath, "http") && !HasImageExtension(CleanPath(imagePath)) ==>
              var c := CleanPath(imagePath);
              || (exists k :: 0 <= k < |Candidates| && c + Candidates[k] in onDisk &&
                              (forall j :: 0 <= j < k ==> c + Candidates[j] !in onDisk) &&
                              r == Some(UploadsBase + c + Candidates[k]))
              || ((forall k :: 0 <= k < |Candidates| ==> c + Candidates[k] !in onDisk) &&
                  r == Some(UploadsBase + c + ".png"))
  {
    if imagePath == "" {
      return None;
    }
    if StartsWith(imagePath, "http") {
      return Some(imagePath);
    }
    var clean := ReplaceChar(imagePath, '\\', '/');
    if StartsWith(clean, "uploads/") {
      clean := clean[8..];
    }
    assert clean == CleanPath(imagePath);
    var url := UploadsUrl(clean, onDisk);
    r := Some(url);
  }

  /** The uploads URL for a cleaned path, with the extension the path has, finds on disk, or ".png". */
  method UploadsUrl(c: string, onDisk: set<string>) returns (url: string)
    ensures StartsWith(url, UploadsBase + c) && HasImageExtension(url)
    ensures HasImageExtension(c) ==> url == UploadsBase + c
    ensures !HasImageExtension(c) ==>
              || (exists k :: 0 <= k < |Candidates| && c + Candidates[k] in onDisk &&
                              (forall j :: 0 <= j < k ==> c + Candidates[j] !in onDisk) &&
                              url == UploadsBase + c + Candidates[k])
              || ((forall k :: 0 <= k < |Candidates| ==> c + Candidates[k] !in onDisk) &&
                  url == UploadsBase + c + ".png")
  {
    var ext := "";
    if !HasImageExtension(c) {
      var k := FirstOnDisk(c, onDisk);
      if k >= 0 {
        ext := Candidates[k];
        CandidateRecognised(c, k);
      } else {
        ext := ".png";
        CandidateRecognised(c, 0);
      }
    }
    assert c + ext == c || !HasImageExtension(c);
    url := UploadsBase + (c + ext);
    assert url == UploadsBase + c + ext;
    assert url[..|UploadsBase + c|] == UploadsBase + c;
    HasImageExtensionSuffix(UploadsBase, c + ext);
  }

  /** The loop over the candidate extensions: the first one whose file exists, or -1. */
  method FirstOnDisk(c: string, onDisk: set<string>) returns (k: int)
    ensures -1 <= k < |Candidates|
    ensures k >= 0 ==> c + Candidates[k] in onDisk
    ensures forall j :: 0 <= j < |Candidates| && (k == -1 || j < k) ==> c + Candidates[j] !in onDisk
  {
    k := 0;
    while k < |Candidates|
      invariant 0 <= k <= |Candidates|
      invariant forall j :: 0 <= j < k ==> c + Candidates[j] !in onDisk
    {
      if c + Candidates[k] in onDisk {
        return;
      }
      k := k + 1;
    }
    k := -1;
  }

  /** The extension test looks only at the end of the path. */
  lemma HasImageExtensionSuffix(prefix: string, p: string)
    requires HasImageExtension(p)
    ensures HasImageExtension(prefix + p)
  {
    ToLowerAppend(prefix, p);
    var t := ToLower(p);
    forall e: string | EndsWith(t, e)
      ensures EndsWith(ToLower(prefix) + t, e)
    {
      EndsWithAppend(ToLower(prefix), t, e);
    }
  }

  // ---------------------------------------------------------------- the products table

  /** A row of the products table. `stock` is None where the insert leaves the column to its default. */
  datatype Product = Product(
    id: nat,
    name: Cell,
    category: Cell,
    subcategory: Cell,
    price: Cell,
    discountedPrice: Cell,
    shortDesc: Cell,
    description: Cell,
    mainImage: Cell,
    subImage1: Cell,
    subImage2: Cell,
    subImage3: Cell,
    reviewText: Cell,
    rating: Cell,
    reviewerName: Cell,
    stock: Option<int>)

  /** A row of the product reviews table written by the add form. */
  datatype ProductReview = ProductReview(productId: nat, text: Cell, rating: Cell, reviewerName: Cell)

  /** The fields of the add and edit forms. */
  datatype ProductForm = ProductForm(
    name: Cell,
    category: Cell,
    subcategory: Cell,
    price: Cell,
    discountedPrice: Cell,
    shortDesc: Cell,
    description: Cell,
    mainImage: Cell,
    subImage1: Cell,
    subImage2: Cell,
    subImage3: Cell,
    reviewText: Cell,
    rating: Cell,
    reviewerName: Cell,
    stock: Cell)

  /** The paths multer gave the uploaded image files; "" where nothing was uploaded. */
  datatype Uploads = Uploads(main: string, sub1: string, sub2: string, sub3: string)

  /** `stock === 'true' || stock === true || stock === '1' || stock === 1 ? 1 : 0`. */
  function StockValue(stock: Cell): (r: int)
    ensures r == 0 || r == 1
    ensures r == 1 <==> stock == Str("true") || stock == Bool(true) || stock == Str("1") || stock == Num(1)
  {
    if stock == Str("true") || stock == Bool(true) || stock == Str("1") || stock == Num(1) then 1 else 0
  }

  /** Truthy values other than these four are still out of stock: "yes", "on", 2. */
  lemma StockIsStrict()
    ensures StockValue(Str("yes")) == 0 && StockValue(Str("on")) == 0 && StockValue(Num(2)) == 0
    ensures StockValue(Str("false")) == 0 && Truthy(Str("false"))
  {
  }

  /** `req.files?.field?.[0]?.path || field || null`: the upload wins over the form field. */
  function ImagePath(uploaded: string, field: Cell): (r: Cell)
    ensures uploaded != "" ==> r == Str(uploaded)
    ensures uploaded == "" ==> r == CellOrNull(field)
  {
    if uploaded != "" then Str(uploaded) else CellOrNull(field)
  }

  /** The three fields both forms and both imports require. */
  predicate Required(name: Cell, category: Cell, price: Cell)
  {
    Truthy(name) && Truthy(category) && Truthy(price)
  }

  /** The 400 reply of the add and edit forms. */
  function FormCheck(form: ProductForm): (r: Reply<()>)
    ensures r.Ok? <==> Required(form.name, form.category, form.price)
    ensures r.Error? ==> r.status == 400
  {
    if !Required(form.name, form.category, form.price)
    then Error(400, "Missing required fields: name, category, price")
    else Ok(())
  }

  /** The row the add form inserts, or the values the edit form writes over row `id`. */
  function FormProduct(id: nat, form: ProductForm, up: Uploads, prev: Product): Product
  {
    Product(id, form.name, form.category, CellOrNull(form.subcategory), form.price,
            CellOrNull(form.discountedPrice), CellOrNull(form.shortDesc), CellOrNull(form.description),
            ImagePath(up.main, form.mainImage), ImagePath(up.sub1, form.subImage1),
            ImagePath(up.sub2, form.subImage2), ImagePath(up.sub3, form.subImage3),
            prev.reviewText, prev.rating, prev.reviewerName, Some(StockValue(form.stock)))
  }

  /** An empty row whose review columns the add form leaves NULL. */
  const NoProduct: Product := Product(0, Blank, Blank, Blank, Blank, Blank, Blank, Blank, Blank, Blank, Blank, Blank,
                                      Blank, Blank, Blank, None)

  // ---------------------------------------------------------------- spreadsheet rows

  /** A sheet row as sheet_to_json gives it: column header to cell. */
  type Row = map<string, Cell>

  function Get(row: Row, key: string): Cell
  {
    if key in row then row[key] else Blank
  }

  /** The route's import keeps a row iff Product Name, Category and Original Price are all truthy. */
  predicate KeepSheetRow(row: Row)
  {
    Required(Get(row, "Product Name"), Get(row, "Category"), Get(row, "Original Price"))
  }

  /** The row the route's import inserts; stock is 1 iff In Stock is exactly "Yes". */
  function SheetProduct(id: nat, row: Row): Product
  {
    Product(id, Get(row, "Product Name"), Get(row, "Category"), CellOrNull(Get(row, "Subcategory")),
            Get(row, "Original Price"), CellOrNull(Get(row, "Discounted Price")),
            CellOrNull(Get(row, "Short Description")), CellOrNull(Get(row, "Full Description")),
            CellOrNull(Get(row, "Main Image URL")), CellOrNull(Get(row, "Sub Image 1 URL")),
            CellOrNull(Get(row, "Sub Image 2 URL")), CellOrNull(Get(row, "Sub Image 3 URL")),
            Blank, Blank, Blank, Some(if Get(row, "In Stock") == Str("Yes") then 1 else 0))
  }

  /** The controller's import keeps a row iff name, category and price are all truthy. */
  predicate KeepProductRow(row: Row)
  {
    Required(Get(row, "name"), Get(row, "category"), Get(row, "price"))
  }

  /** The row the controller's import inserts: every optional column `|| null`, stock left to its default. */
  function ControllerProduct(id: nat, row: Row): Product
  {
    Product(id, Get(row, "name"), Get(row, "category"), CellOrNull(Get(row, "subcategory")), Get(row, "price"),
            CellOrNull(Get(row, "discounted_price")), CellOrNull(Get(row, "short_desc")),
            CellOrNull(Get(row, "description")), CellOrNull(Get(row, "main_image")),
            CellOrNull(Get(row, "sub_image_1")), CellOrNull(Get(row, "sub_image_2")),
            CellOrNull(Get(row, "sub_image_3")), CellOrNull(Get(row, "review_text")),
            CellOrNull(Get(row, "rating")), CellOrNull(Get(row, "reviewer_name")), None)
  }

  /** The row one of the two imports inserts for a kept sheet row. */
  function RowProduct(id: nat, row: Row, controller: bool): Product
  {
    if controller then ControllerProduct(id, row) else SheetProduct(id, row)
  }

  /** The kept rows inserted in sheet order under consecutive ids from `firstId`. */
  function Imported(firstId: nat, kept: seq<Row>, controller: bool): seq<Product>
  {
    seq(|kept|, k requires 0 <= k < |kept| => RowProduct(firstId + k, kept[k], controller))
  }

  /** The replies both imports give before their loops. */
  function ImportCheck(hasFile: bool, rows: seq<Row>): (r: Reply<()>)
    ensures r.Ok? <==> hasFile && rows != []
    ensures r.Error? ==> r.status == 400
  {
    if !hasFile then Error(400, "No file uploaded.")
    else if rows == [] then Error(400, "No rows found in sheet.")
    else Ok(())
  }

  /** A stored product always has its three required fields and a stock flag of 0 or 1 when one was written. */
  ghost predicate WellFormed(p: Product)
  {
    Required(p.name, p.category, p.price) && (p.stock.Some? ==> p.stock.value in {0, 1})
  }

  /**
   * What every sequence of the handlers keeps: ids distinct and below the next
   * auto-increment value, every product well formed, every review pointing
   * below the next id.
   */
  ghost predicate CatalogInvariant(products: seq<Product>, reviews: seq<ProductReview>, nextId: nat)
  {
    && nextId >= 1
    && (forall k :: 0 <= k < |products| ==> 1 <= products[k].id < nextId && WellFormed(products[k]))
    && (forall k, m :: 0 <= k < m < |products| ==> products[k].id != products[m].id)
    && (forall k :: 0 <= k < |reviews| ==> reviews[k].productId < nextId)
  }

  /** One more kept row appends one more product, numbered after the ones before it. */
  lemma ImportedAppend(base: seq<Product>, firstId: nat, kept: seq<Row>, row: Row, controller: bool)
    ensures base + Imported(firstId, kept + [row], controller) ==
              base + Imported(firstId, kept, controller) +
              [RowProduct(firstId + |kept|, row, controller)]
  {
    var a := Imported(firstId, kept, controller);
    var b := Imported(firstId, kept + [row], controller);
    assert b == a + [b[|kept|]];
  }

  /** The rows an import inserts are well formed and numbered from `firstId`. */
  lemma ImportedWellFormed(firstId: nat, rows: seq<Row>, controller: bool)
    requires forall k :: 0 <= k < |rows| ==> if controller then KeepProductRow(rows[k]) else KeepSheetRow(rows[k])
    ensures forall k :: 0 <= k < |rows| ==>
              Imported(firstId, rows, controller)[k].id == firstId + k &&
              WellFormed(Imported(firstId, rows, controller)[k])
  {
  }

  /** Appending imported rows under fresh consecutive ids keeps the table invariant. */
  lemma ImportKeepsInvariant(products: seq<Product>, reviews: seq<ProductReview>, firstId: nat, kept: seq<Row>,
                             controller: bool)
    requires CatalogInvariant(products, reviews, firstId)
    requires forall k :: 0 <= k < |kept| ==> if controller then KeepProductRow(kept[k]) else KeepSheetRow(kept[k])
    ensures CatalogInvariant(products + Imported(firstId, kept, controller), reviews, firstId + |kept|)
  {
    ImportedWellFormed(firstId, kept, controller);
  }

  class Catalog {
    var products: seq<Product>
    var reviews: seq<ProductReview>
    var nextId: nat

    ghost predicate Valid()
      reads this
    {
      CatalogInvariant(products, reviews, nextId)
    }

    constructor ()
      ensures Valid() && products == [] && reviews == [] && nextId == 1
    {
      products := [];
      reviews := [];
      nextId := 1;
    }

    /**
     * POST /: the required-field check, one product row, and a review row
     * (rating defaulting to 5) when both review text and reviewer are given.
     */
    method AddProduct(form: ProductForm, up: Uploads) returns (r: Reply<nat>)
      requires Valid()
      modifies this
      ensures Valid()
      ensures r.Error? <==> FormCheck(form).Error?
      ensures r.Error? ==> r == Error(400, "Missing required fields: name, category, price") && unchanged(this)
      ensures r.Ok? ==> r.value == old(nextId) && nextId == old(nextId) + 1 &&
                        products == old(products) + [FormProduct(r.value, form, up, NoProduct)]
      ensures r.Ok? && Truthy(form.reviewText) && Truthy(form.reviewerName) ==>
                reviews == old(reviews) + [ProductReview(r.value, form.reviewText,
                                                         if Truthy(form.rating) then form.rating else Num(5),
                                                         form.reviewerName)]
      ensures r.Ok? && !(Truthy(form.reviewText) && Truthy(form.reviewerName)) ==> reviews == old(reviews)
    {
      if FormCheck(form).Error? {
        return Error(400, "Missing required fields: name, category, price");
      }
      var id := nextId;
      products := products + [FormProduct(id, form, up, NoProduct)];
      nextId := nextId + 1;
      if Truthy(form.reviewText) && Truthy(form.reviewerName) {
        reviews := reviews + [ProductReview(id, form.reviewText, if Truthy(form.rating) then form.rating else Num(5),
                                            form.reviewerName)];
      }
      r := Ok(id);
    }

    /**
     * PUT /:id: the required-field check, then every row with that id takes
     * the form's values; an unknown id changes nothing and still succeeds.
     */
    method EditProduct(id: nat, form: ProductForm, up: Uploads) returns (r: Reply<()>)
      requires Valid()
      modifies this
      ensures Valid()
      ensures r == FormCheck(form)
      ensures r.Error? ==> products == old(products)
      ensures r.Ok? ==> |products| == |old(products)| &&
                        forall k :: 0 <= k < |products| ==>
                          products[k] == if old(products)[k].id == id
                                         then FormProduct(id, form, up, old(products)[k])
                                         else old(products)[k]
      ensures reviews == old(reviews) && nextId == old(nextId)
    {
      r := FormCheck(form);
      if r.Ok? {
        products := seq(|products|, k requires 0 <= k < |products| reads this =>
          if products[k].id == id then FormProduct(id, form, up, products[k]) else products[k]);
      }
    }

    /** DELETE /:id: removes the row with that id, if any; always succeeds. */
    method DeleteProduct(id: nat)
      requires Valid()
      modifies this
      ensures Valid()
      ensures products == Filter(old(products), (p: Product) => p.id != id)
      ensures forall k :: 0 <= k < |products| ==> products[k].id != id
      ensures reviews == old(reviews) && nextId == old(nextId)
    {
      var kept := Filter(products, (p: Product) => p.id != id);
      assert forall k :: 0 <= k < |kept| ==> kept[k] in products;
      FilterIsSubsequence(products, (p: Product) => p.id != id);
      SubsequenceKeepsDistinctIds(kept, products);
      products := kept;
    }

    /**
     * The row loop shared by both imports: rows missing a required field are
     * skipped, the others inserted in sheet order; returns how many were inserted.
     */
    method InsertKeptRows(rows: seq<Row>, controller: bool) returns (inserted: nat)
      modifies this
      ensures inserted == |Filter(rows, if controller then KeepProductRow else KeepSheetRow)|
      ensures products == old(products) +
                          Imported(old(nextId), Filter(rows, if controller then KeepProductRow else KeepSheetRow), controller)
      ensures nextId == old(nextId) + inserted && reviews == old(reviews)
    {
      var keep := if controller then KeepProductRow else KeepSheetRow;
      inserted := 0;
      ghost var kept: seq<Row> := [];
      for i := 0 to |rows|
        invariant kept == FilterFromEnd(rows[..i], keep)
        invariant inserted == |kept|
        invariant products == old(products) + Imported(old(nextId), kept, controller)
        invariant nextId == old(nextId) + inserted && reviews == old(reviews)
      {
        var row := rows[i];
        FilterFromEndStep(rows, i, keep);
        if !keep(row) {
          continue;
        }
        ImportedAppend(old(products), old(nextId), kept, row, controller);
        products := products + [RowProduct(nextId, row, controller)];
        nextId := nextId + 1;
        inserted := inserted + 1;
        kept := kept + [row];
      }
      assert rows[..|rows|] == rows;
      FilterFromEndIsFilter(rows, keep);
    }

    /**
     * POST /bulk-import: the file and empty-sheet checks, then the row loop
     * over the sheet's column headers; the reply is the number inserted.
     */
    method ImportSheet(hasFile: bool, rows: seq<Row>) returns (r: Reply<nat>)
      requires Valid()
      modifies this
      ensures Valid()
      ensures r.Error? <==> ImportCheck(hasFile, rows).Error?
      ensures r.Error? ==> r.status == 400 && unchanged(this)
      ensures r.Ok? ==> r.value == |Filter(rows, KeepSheetRow)| && r.value <= |rows|
      ensures r.Ok? ==> products == old(products) + Imported(old(nextId), Filter(rows, KeepSheetRow), false) &&
                        nextId == old(nextId) + r.value
      ensures reviews == old(reviews)
    {
      var check := ImportCheck(hasFile, rows);
      if check.Error? {
        return Error(check.status, check.message);
      }
      var inserted := InsertKeptRows(rows, false);
      ImportKeepsInvariant(old(products), reviews, old(nextId), Filter(rows, KeepSheetRow), false);
      r := Ok(inserted);
    }

    /**
     * bulkImport of the products controller: the same checks and row loop over
     * the lower-case column names, storing absent optional fields as null.
     */
    method ImportProducts(hasFile: bool, rows: seq<Row>) returns (r: Reply<nat>)
      requires Valid()
      modifies this
      ensures Valid()
      ensures r.Error? <==> ImportCheck(hasFile, rows).Error?
      ensures r.Error? ==> r.status == 400 && unchanged(this)
      ensures r.Ok? ==> r.value == |Filter(rows, KeepProductRow)| && r.value <= |rows|
      ensures r.Ok? ==> products == old(products) + Imported(old(nextId), Filter(rows, KeepProductRow), true) &&
                        nextId == old(nextId) + r.value
      ensures reviews == old(reviews)
    {
      var check := ImportCheck(hasFile, rows);
      if check.Error? {
        return Error(check.status, check.message);
      }
      var inserted := InsertKeptRows(rows, true);
      ImportKeepsInvariant(old(products), reviews, old(nextId), Filter(rows, KeepProductRow), true);
      r := Ok(inserted);
    }
  }

  /** A subsequence of a table with distinct ids has distinct ids and only rows of the table. */
  lemma {:induction false} SubsequenceKeepsDistinctIds(a: seq<Product>, b: seq<Product>)
    requires IsSubsequence(a, b)
    requires forall k, m :: 0 <= k < m < |b| ==> b[k].id != b[m].id
    ensures forall k, m :: 0 <= k < m < |a| ==> a[k].id != a[m].id
  {
    if a != [] && b != [] {
      if a[0] == b[0] {
        SubsequenceKeepsDistinctIds(a[1..], b[1..]);
        SubsequenceMembers(a[1..], b[1..]);
        forall m | 0 < m < |a|
          ensures a[0].id != a[m].id
        {
          assert a[m] == a[1..][m - 1];
          assert a[m] in b[1..];
        }
      } else {
        SubsequenceKeepsDistinctIds(a, b[1..]);
      }
    }
  }
}
