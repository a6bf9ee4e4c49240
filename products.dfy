/** The product table of src/providers/products.provider.ts and the product
    services of src/services/products.service.ts: creation, the paged and
    filtered listing, category membership edits, the cascading delete and the
    sweep that strips a deleted category from every product. */
module Products {
  import opened Wrappers
  import opened Seqs
  import opened JsText
  import opened Catalog
  import opened FileService

  /** `ProductRequest`: every field may be absent. */
  datatype ProductRequest = ProductRequest(productCode: Option<string>, productName: string,
                                           productDescription: Option<string>, imageLink: Option<string>,
                                           categories: Option<seq<string>>)

  /** The row `createProduct` writes: code and image link trimmed, name and
      description as given, categories defaulting to []. */
  function NewProduct(id: string, req: ProductRequest): (p: Product)
    ensures p.id == id && p.productName == req.productName && p.productDescription == req.productDescription
    ensures p.productCode == TrimOpt(req.productCode) && p.imageLink == TrimOpt(req.imageLink)
    ensures p.categories == req.categories.GetOr([])
  {
    Product(id, TrimOpt(req.productCode), req.productName, req.productDescription, TrimOpt(req.imageLink),
            match req.categories case Some(c) => c case None => [])
  }

  /** A created product's code and link carry no surrounding white space. */
  lemma NewProductTrimmed(id: string, req: ProductRequest)
    ensures NewProduct(id, req).productCode.Some? ==> Trim(NewProduct(id, req).productCode.value) == NewProduct(id, req).productCode.value
    ensures NewProduct(id, req).imageLink.Some? ==> Trim(NewProduct(id, req).imageLink.value) == NewProduct(id, req).imageLink.value
  {
    if req.productCode.Some? { TrimIdempotent(req.productCode.value); }
    if req.imageLink.Some? { TrimIdempotent(req.imageLink.value); }
  }

  /** `categoryId` filters only when it is truthy. */
  function Matching(products: seq<Product>, categoryId: Option<string>): (r: seq<Product>)
    ensures categoryId.None? || categoryId.value == "" ==> r == products
    ensures categoryId.Some? && categoryId.value != "" ==> r == InCategory(products, categoryId.value)
  {
    if categoryId.Some? && categoryId.value != "" then InCategory(products, categoryId.value) else products
  }

  function Min(a: int, b: int): int { if a <= b then a else b }

  /** `skip`/`take`: at most `take` elements starting at position `skip`. */
  function Window<T>(s: seq<T>, skip: nat, take: nat): (r: seq<T>)
    ensures |r| <= take
    ensures skip + take <= |s| ==> |r| == take
    ensures skip >= |s| ==> r == []
    ensures forall k :: 0 <= k < |r| ==> skip + k < |s| && r[k] == s[skip + k]
  {
    s[Min(skip, |s|)..Min(skip + take, |s|)]
  }

  /** A negative `take`: Prisma reverses the order, skips and takes, and
      restores the order, so the window is the `take` elements that end `skip`
      before the end of the list. */
  function WindowFromEnd<T>(s: seq<T>, skip: nat, take: nat): (r: seq<T>)
    ensures |r| <= take
    ensures skip + take <= |s| ==> |r| == take
    ensures skip >= |s| ==> r == []
    ensures skip < |s| ==> |r| == Min(take, |s| - skip)
    ensures forall k :: 0 <= k < |r| ==> |s| - skip - |r| + k >= 0 && r[k] == s[|s| - skip - |r| + k]
  {
    var end := |s| - Min(skip, |s|);
    s[end - Min(take, end)..end]
  }

  /** `getAllProducts`: the matching products, a window of them when both page
      and pageSize are given (skip = page * pageSize), with the count of all
      matching products. A negative skip is an error, as Prisma rejects it; a
      negative take reads that many from the end. */
  function GetAllProducts(products: seq<Product>, categoryId: Option<string>, page: Option<int>, pageSize: Option<int>)
    : (r: Result<PagedResult<Product>>)
    ensures (page.None? || pageSize.None?) ==> r == Ok(PagedResult(Matching(products, categoryId), |Matching(products, categoryId)|))
    ensures page.Some? && pageSize.Some? ==> (r.Ok? <==> page.value * pageSize.value >= 0)
    ensures r.Ok? ==> r.value.total == |Matching(products, categoryId)|
    ensures r.Ok? && page.Some? && pageSize.Some? && pageSize.value >= 0 ==>
      r.value.data == Window(Matching(products, categoryId), page.value * pageSize.value, pageSize.value)
    ensures r.Ok? && page.Some? && pageSize.Some? && pageSize.value < 0 ==>
      r.value.data == WindowFromEnd(Matching(products, categoryId), page.value * pageSize.value, -pageSize.value)
  {
    var matching := Matching(products, categoryId);
    if page.Some? && pageSize.Some? then
      var skip := page.value * pageSize.value;
      if skip < 0 then Err("Invalid skip")
      else if pageSize.value >= 0 then Ok(PagedResult(Window(matching, skip, pageSize.value), |matching|))
      else Ok(PagedResult(WindowFromEnd(matching, skip, -pageSize.value), |matching|))
    else Ok(PagedResult(matching, |matching|))
  }

  /** Page 0 with a negative page size `-n` lists the last `n` matching
      products (all of them when fewer match), in order, with the full total. */
  lemma NegativePageSizeReadsLast(products: seq<Product>, categoryId: Option<string>, n: nat)
    requires n > 0
    ensures var m := Matching(products, categoryId);
      GetAllProducts(products, categoryId, Some(0), Some(-(n as int)))
        == Ok(PagedResult(m[|m| - Min(n, |m|)..], |m|))
  {
    var m := Matching(products, categoryId);
    var r := WindowFromEnd(m, 0, n);
    assert |r| == Min(n, |m|) by {
      if |m| == 0 { assert r == []; }
    }
    assert r == m[|m| - Min(n, |m|)..];
  }

  /** Paging never changes the total, and a page holds only matching products,
      never more than the page size. */
  lemma PagingKeepsTotal(products: seq<Product>, cid: string, page: nat, pageSize: nat)
    requires cid != ""
    ensures var r := GetAllProducts(products, Some(cid), Some(page), Some(pageSize));
      && r.Ok?
      && r.value.total == GetAllProducts(products, Some(cid), None, None).value.total
      && |r.value.data| <= pageSize
      && forall k :: 0 <= k < |r.value.data| ==> cid in r.value.data[k].categories && r.value.data[k] in products
  {
    var m := InCategory(products, cid);
    var r := GetAllProducts(products, Some(cid), Some(page), Some(pageSize));
    forall k | 0 <= k < |r.value.data|
      ensures cid in r.value.data[k].categories && r.value.data[k] in products
    {
      assert r.value.data[k] == m[page * pageSize + k];
    }
  }

  /** The id list with every occurrence of `cid` removed. */
  function RemoveId(ids: seq<string>, cid: string): (r: seq<string>)
    ensures cid !in r
    ensures forall x :: x != cid ==> (x in r <==> x in ids)
  {
    Filter(ids, (x: string) => x != cid)
  }

  /** Removing an id that was just appended to a list without it gives back the
      list. */
  lemma RemoveAfterAdd(ids: seq<string>, cid: string)
    requires cid !in ids
    ensures RemoveId(ids + [cid], cid) == ids
  {
    FilterSnoc(ids, cid, (x: string) => x != cid);
    FilterAll(ids, (x: string) => x != cid);
  }

  /** Removing keeps the other ids in their order (and every one of them). */
  lemma RemoveKeepsOthers(ids: seq<string>, cid: string, more: seq<string>)
    ensures RemoveId(ids + more, cid) == RemoveId(ids, cid) + RemoveId(more, cid)
  {
    FilterConcat(ids, more, (x: string) => x != cid);
  }

  /** Prisma's message for a violated unique constraint on the code column. */
  const UNIQUE_CODE_ERROR := "Unique constraint failed on the fields: (`productCode`)"

  predicate UniqueProductIds(products: seq<Product>) {
    forall i, j :: 0 <= i < j < |products| ==> products[i].id != products[j].id
  }

  /** `productCode` is a unique column (`getByProductCode` looks it up with
      `findUnique`); a row without a code takes part in no conflict. */
  predicate UniqueProductCodes(products: seq<Product>) {
    forall i, j :: 0 <= i < j < |products| && products[i].productCode.Some? ==>
      products[i].productCode != products[j].productCode
  }

  /** Some stored row already carries the code. */
  predicate CodeTaken(products: seq<Product>, code: Option<string>) {
    code.Some? && exists i :: 0 <= i < |products| && products[i].productCode == code
  }

  /** Appending a row whose code is not taken keeps the codes unique. */
  lemma AppendFreeCode(products: seq<Product>, p: Product)
    requires UniqueProductCodes(products) && !CodeTaken(products, p.productCode)
    ensures UniqueProductCodes(products + [p])
  {
    var after := products + [p];
    forall i, j | 0 <= i < j < |after| && after[i].productCode.Some?
      ensures after[i].productCode != after[j].productCode
    {
      if j == |products| {
        assert after[i] == products[i];
      } else {
        assert after[i] == products[i] && after[j] == products[j];
      }
    }
  }

  /** A row under an id longer than every stored one is new, and appending it
      keeps the ids unique. */
  lemma AppendFreshId(products: seq<Product>, p: Product)
    requires UniqueProductIds(products)
    requires forall i :: 0 <= i < |products| ==> |products[i].id| < |p.id|
    ensures IndexOfProduct(products, p.id).None?
    ensures UniqueProductIds(products + [p])
  {
    var after := products + [p];
    forall i, j | 0 <= i < j < |after|
      ensures after[i].id != after[j].id
    {
      assert after[i] == products[i];
      if j < |products| {
        assert after[j] == products[j];
      }
    }
  }

  /** The database refuses a second row with a stored code, but the controller's
      check looks the code up untrimmed: with a trimmed code stored, a request
      for the same code after a space misses that check, and its trimmed code is
      then refused by the unique constraint. */
  lemma PaddedCodePassesCheck(stored: Product, req: ProductRequest, code: string, id: string)
    requires stored.productCode == Some(code) && Trim(code) == code
    requires req.productCode == Some(" " + code)
    ensures stored.productCode != req.productCode
    ensures CodeTaken([stored], NewProduct(id, req).productCode)
  {
    assert |" " + code| != |code|;
    TrimStartSkips(" ", code);
    assert Trim(" " + code) == code;
    assert [stored][0].productCode == NewProduct(id, req).productCode;
  }

  function IndexOfProduct(products: seq<Product>, id: string): (r: Option<nat>)
    ensures r.Some? ==> r.value < |products| && products[r.value].id == id
    ensures r.None? ==> forall i :: 0 <= i < |products| ==> products[i].id != id
  {
    if products == [] then None
    else if products[0].id == id then Some(0)
    else match IndexOfProduct(products[1..], id)
      case None => None
      case Some(k) => Some(k + 1)
  }

  function ConcatProductIds(products: seq<Product>): (s: string)
    ensures forall i :: 0 <= i < |products| ==> |products[i].id| <= |s|
  {
    if products == [] then "" else
      var rest := ConcatProductIds(products[1..]);
      assert forall i :: 1 <= i < |products| ==> products[i] == products[1..][i - 1];
      products[0].id + rest
  }

  /** The product with `cid` stripped from its categories. */
  function StripOne(p: Product, cid: string): (r: Product)
    ensures r == p.(categories := RemoveId(p.categories, cid))
  {
    p.(categories := RemoveId(p.categories, cid))
  }

  /** The table after stripping `cid` from the products whose ids are in `sel`. */
  function Strip(products: seq<Product>, cid: string, sel: set<string>): (r: seq<Product>)
    ensures |r| == |products|
    ensures forall i :: 0 <= i < |r| ==>
      r[i] == if products[i].id in sel then StripOne(products[i], cid) else products[i]
  {
    if products == [] then []
    else [if products[0].id in sel then StripOne(products[0], cid) else products[0]] + Strip(products[1..], cid, sel)
  }

  /** The ids of a list of products. */
  function IdSet(products: seq<Product>): (s: set<string>)
    ensures forall i :: 0 <= i < |products| ==> products[i].id in s
    ensures forall x :: x in s ==> exists i :: 0 <= i < |products| && products[i].id == x
  {
    set i | 0 <= i < |products| :: products[i].id
  }

  /** Stripping never adds a product to the category, and stripping a product
      that is in it takes it out. */
  lemma {:induction false} StripShrinks(products: seq<Product>, cid: string, sel: set<string>, i: nat)
    requires i < |products| && products[i].id in sel && cid in products[i].categories
    ensures |InCategory(Strip(products, cid, sel), cid)| < |InCategory(products, cid)|
  {
    StripNeverGrows(products[1..], cid, sel);
    if i > 0 {
      StripShrinks(products[1..], cid, sel, i - 1);
    }
    assert Strip(products, cid, sel)[1..] == Strip(products[1..], cid, sel);
  }

  lemma {:induction false} StripNeverGrows(products: seq<Product>, cid: string, sel: set<string>)
    ensures |InCategory(Strip(products, cid, sel), cid)| <= |InCategory(products, cid)|
  {
    if products != [] {
      StripNeverGrows(products[1..], cid, sel);
      assert Strip(products, cid, sel)[1..] == Strip(products[1..], cid, sel);
    }
  }

  /** The page size of `deleteCategoryFromAllProducts`. */
  const SWEEP_PAGE_SIZE: nat := 50

  /** The products one round of the sweep fetches: page `page` of the products
      still in the category. */
  function SweepPage(products: seq<Product>, cid: string, page: nat): (r: seq<Product>)
    ensures |r| <= SWEEP_PAGE_SIZE
    ensures forall k :: 0 <= k < |r| ==> r[k] in products && cid in r[k].categories
  {
    var m := InCategory(products, cid);
    var r := Window(m, page * SWEEP_PAGE_SIZE, SWEEP_PAGE_SIZE);
    assert forall k :: 0 <= k < |r| ==> r[k] == m[page * SWEEP_PAGE_SIZE + k];
    r
  }

  /** `deleteCategoryFromAllProducts` as written, from round `page` on: strip the
      fetched page, stop after a short page, otherwise fetch the next page of
      what is still in the category. */
  function SweepFrom(products: seq<Product>, cid: string, page: nat): (r: seq<Product>)
    ensures |r| == |products|
    decreases |InCategory(products, cid)|
  {
    var data := SweepPage(products, cid, page);
    var next := Strip(products, cid, IdSet(data));
    if |data| < SWEEP_PAGE_SIZE then next
    else
      StripShrinks(products, cid, IdSet(data), IndexOf(products, data[0]));
      SweepFrom(next, cid, page + 1)
  }

  /** The sweep's fetch is `SweepPage`. */
  lemma SweepFetch(products: seq<Product>, cid: string, page: nat)
    requires cid != ""
    ensures GetAllProducts(products, Some(cid), Some(page), Some(SWEEP_PAGE_SIZE))
      == Ok(PagedResult(SweepPage(products, cid, page), |InCategory(products, cid)|))
  {
  }

  /** One round of the sweep: a short page ends it, a full page takes at least
      one product out of the category and hands on to the next page. */
  lemma SweepRound(products: seq<Product>, cid: string, page: nat)
    ensures var data := SweepPage(products, cid, page);
      var next := Strip(products, cid, IdSet(data));
      && (|data| < SWEEP_PAGE_SIZE ==> SweepFrom(products, cid, page) == next)
      && (|data| >= SWEEP_PAGE_SIZE ==>
            SweepFrom(products, cid, page) == SweepFrom(next, cid, page + 1)
            && |InCategory(next, cid)| < |InCategory(products, cid)|)
  {
    var data := SweepPage(products, cid, page);
    if |data| >= SWEEP_PAGE_SIZE {
      StripShrinks(products, cid, IdSet(data), IndexOf(products, data[0]));
    }
  }

  function IndexOf(products: seq<Product>, p: Product): (i: nat)
    requires p in products
    ensures i < |products| && products[i] == p
  {
    if products[0] == p then 0 else 1 + IndexOf(products[1..], p)
  }

  /** The sweep as evidently intended: every round fetches the first page of
      what is still in the category, so nothing is skipped. */
  function SweepFromStart(products: seq<Product>, cid: string): (r: seq<Product>)
    ensures |r| == |products|
    ensures forall i :: 0 <= i < |r| ==> cid !in r[i].categories
    decreases |InCategory(products, cid)|
  {
    var data := SweepPage(products, cid, 0);
    var next := Strip(products, cid, IdSet(data));
    if |data| < SWEEP_PAGE_SIZE then
      StripAllMatching(products, cid);
      next
    else
      StripShrinks(products, cid, IdSet(data), IndexOf(products, data[0]));
      SweepFromStart(next, cid)
  }

  /** A first page shorter than the page size is the whole category, so
      stripping it leaves no product in the category. */
  lemma StripAllMatching(products: seq<Product>, cid: string)
    requires |SweepPage(products, cid, 0)| < SWEEP_PAGE_SIZE
    ensures forall i :: 0 <= i < |products| ==>
      cid !in Strip(products, cid, IdSet(SweepPage(products, cid, 0)))[i].categories
  {
    var m := InCategory(products, cid);
    var data := SweepPage(products, cid, 0);
    assert data == m;
    forall i | 0 <= i < |products| && cid in products[i].categories
      ensures products[i].id in IdSet(data)
    {
      assert products[i] in m;
      var k :| 0 <= k < |m| && m[k] == products[i];
    }
  }

  /** The sweep as written misses products: with 51 products in the category,
      the first round strips the first 50, the second round asks for page 1 of
      the single product left, gets nothing and stops, so the 51st product keeps
      the category. */
  lemma SweepMissesLastProduct(products: seq<Product>, cid: string)
    requires |products| == 51 && UniqueProductIds(products)
    requires forall i :: 0 <= i < |products| ==> products[i].categories == [cid]
    ensures SweepFrom(products, cid, 0)[50] == products[50]
    ensures cid in SweepFrom(products, cid, 0)[50].categories
  {
    var next := Strip(products, cid, IdSet(products[..50]));
    FirstRoundTakesFifty(products, cid);
    AfterFirstRound(products, cid);
    SecondRoundFindsNothing(next, cid);
  }

  lemma FirstRoundTakesFifty(products: seq<Product>, cid: string)
    requires |products| == 51
    requires forall i :: 0 <= i < |products| ==> products[i].categories == [cid]
    ensures SweepPage(products, cid, 0) == products[..50]
  {
    FilterAll(products, HasCategory(cid));
  }

  lemma AfterFirstRound(products: seq<Product>, cid: string)
    requires |products| == 51 && UniqueProductIds(products)
    requires forall i :: 0 <= i < |products| ==> products[i].categories == [cid]
    ensures var next := Strip(products, cid, IdSet(products[..50]));
      next[50] == products[50] && InCategory(next, cid) == [products[50]]
  {
    var next := Strip(products, cid, IdSet(products[..50]));
    FirstRoundStrips(products, cid);
    assert next == next[..50] + [next[50]];
    FilterConcat(next[..50], [next[50]], HasCategory(cid));
    NoneInCategory(next[..50], cid);
  }

  /** The first round strips the first 50 products and leaves the 51st alone. */
  lemma FirstRoundStrips(products: seq<Product>, cid: string)
    requires |products| == 51 && UniqueProductIds(products)
    ensures var next := Strip(products, cid, IdSet(products[..50]));
      next[50] == products[50] && forall i :: 0 <= i < 50 ==> cid !in next[i].categories
  {
    assert products[50].id !in IdSet(products[..50]);
  }

  /** Products none of which lists the id leave the category empty. */
  lemma {:induction false} NoneInCategory(products: seq<Product>, cid: string)
    requires forall i :: 0 <= i < |products| ==> cid !in products[i].categories
    ensures InCategory(products, cid) == []
  {
    if products != [] {
      NoneInCategory(products[1..], cid);
    }
  }

  lemma SecondRoundFindsNothing(next: seq<Product>, cid: string)
    requires |InCategory(next, cid)| == 1
    ensures SweepFrom(next, cid, 1) == next
  {
    assert SweepPage(next, cid, 1) == [];
    assert IdSet([]) == {};
  }

  /** Every product `deleteProductAndRelatedData` deletes alongside: the four
      steps in order. */
  datatype DeleteStep = CustomizationsAndOptions | Parts | Variants | ProductRow

  const DELETE_STEPS: seq<DeleteStep> := [CustomizationsAndOptions, Parts, Variants, ProductRow]

  /** The message a failing step is reported with. */
  function StepError(step: DeleteStep, error: string): string {
    match step
    case CustomizationsAndOptions => "An error occurred while deleting customizations and options: " + error
    case Parts => "An error occurred while deleting parts: " + error
    case Variants => "An error occurred while deleting variants: " + error
    case ProductRow => "An error occurred while delete product: " + error
  }

  /** The steps run before the first failure, the failing one included. */
  function StepsRun(outcome: DeleteStep -> Option<string>, steps: seq<DeleteStep>): (r: seq<DeleteStep>)
    ensures |r| <= |steps| && r == steps[..|r|]
    ensures forall k :: 0 <= k < |r| - 1 ==> outcome(r[k]).None?
    ensures |r| < |steps| ==> |r| > 0 && outcome(r[|r| - 1]).Some?
  {
    if steps == [] then []
    else if outcome(steps[0]).Some? then [steps[0]]
    else [steps[0]] + StepsRun(outcome, steps[1..])
  }

  /** The four possible prefixes of the deletion steps. */
  lemma StepsRunOfDeleteSteps(outcome: DeleteStep -> Option<string>)
    ensures StepsRun(outcome, DELETE_STEPS) ==
      if outcome(CustomizationsAndOptions).Some? then [CustomizationsAndOptions]
      else if outcome(Parts).Some? then [CustomizationsAndOptions, Parts]
      else if outcome(Variants).Some? then [CustomizationsAndOptions, Parts, Variants]
      else DELETE_STEPS
  {
    var s := DELETE_STEPS;
    assert s[1..] == [Parts, Variants, ProductRow];
    assert s[1..][1..] == [Variants, ProductRow];
    assert s[1..][1..][1..] == [ProductRow];
    assert s[1..][1..][1..][1..] == [];
  }

  /** `deleteProductAndRelatedData`: run the four deletions in order, each an
      abstract collaborator whose failure `outcome` gives, and stop at the first
      failure with that step's message. `ran` lists the steps attempted. */
  method DeleteProductAndRelatedData(outcome: DeleteStep -> Option<string>)
    returns (r: Result<()>, ran: seq<DeleteStep>)
    ensures ran == StepsRun(outcome, DELETE_STEPS)
    ensures r.Ok? <==> forall k :: 0 <= k < |DELETE_STEPS| ==> outcome(DELETE_STEPS[k]).None?
    ensures r.Err? ==> r.message == StepError(ran[|ran| - 1], outcome(ran[|ran| - 1]).value)
  {
    StepsRunOfDeleteSteps(outcome);
    ran := [];
    var step := CustomizationsAndOptions;
    ran := ran + [step];
    if outcome(step).Some? { return Err(StepError(step, outcome(step).value)), ran; }
    step := Parts;
    ran := ran + [step];
    if outcome(step).Some? { return Err(StepError(step, outcome(step).value)), ran; }
    step := Variants;
    ran := ran + [step];
    if outcome(step).Some? { return Err(StepError(step, outcome(step).value)), ran; }
    step := ProductRow;
    ran := ran + [step];
    if outcome(step).Some? { return Err(StepError(step, outcome(step).value)), ran; }
    r := Ok(());
  }

  class ProductTable {
    var products: seq<Product>

    ghost predicate Valid()
      reads this
    {
      UniqueProductIds(products) && UniqueProductCodes(products)
    }

    constructor()
      ensures Valid() && products == []
    {
      products := [];
    }

    /** `createProduct`: the normalised row under a fresh id, or the database's
        unique-constraint error, with no change, when the trimmed code is stored
        already. */
    method CreateProduct(req: ProductRequest) returns (r: Result<Product>)
      requires Valid()
      modifies this
      ensures Valid()
      ensures CodeTaken(old(products), TrimOpt(req.productCode)) ==>
        r == Err(UNIQUE_CODE_ERROR) && products == old(products)
      ensures !CodeTaken(old(products), TrimOpt(req.productCode)) ==>
        && r.Ok?
        && IndexOfProduct(old(products), r.value.id).None?
        && r.value == NewProduct(r.value.id, req)
        && products == old(products) + [r.value]
    {
      if CodeTaken(products, TrimOpt(req.productCode)) {
        return Err(UNIQUE_CODE_ERROR);
      }
      var p := NewProduct(ConcatProductIds(products) + "p", req);
      AppendFreeCode(products, p);
      AppendFreshId(products, p);
      products := products + [p];
      r := Ok(p);
    }

    /** `addCategoryToProduct`: the category id is pushed onto the passed
        product's own list (`mutated` is that object afterwards) and the row
        with the product's id gets that list, earlier ids kept, no duplicate
        check. */
    method AddCategoryToProduct(product: Product, category: Category) returns (mutated: Product, r: Result<Product>)
      requires Valid()
      modifies this
      ensures Valid()
      ensures mutated == product.(categories := product.categories + [category.id])
      ensures IndexOfProduct(old(products), product.id).None? ==> r.Err? && products == old(products)
      ensures IndexOfProduct(old(products), product.id).Some? ==>
        var k := IndexOfProduct(old(products), product.id).value;
        && r == Ok(old(products)[k].(categories := mutated.categories))
        && products == old(products)[k := r.value]
    {
      mutated := product.(categories := product.categories + [category.id]);
      var found := IndexOfProduct(products, product.id);
      if found.None? {
        return mutated, Err("Record to update not found.");
      }
      var row := products[found.value].(categories := mutated.categories);
      products := products[found.value := row];
      r := Ok(row);
    }

    /** `removeCategoryFromProduct`: the row with the product's id gets the
        passed product's list without any occurrence of the category id. */
    method RemoveCategoryFromProduct(product: Product, category: Category) returns (r: Result<Product>)
      requires Valid()
      modifies this
      ensures Valid()
      ensures IndexOfProduct(old(products), product.id).None? ==> r.Err? && products == old(products)
      ensures IndexOfProduct(old(products), product.id).Some? ==>
        var k := IndexOfProduct(old(products), product.id).value;
        && r == Ok(old(products)[k].(categories := RemoveId(product.categories, category.id)))
        && products == old(products)[k := r.value]
    {
      var found := IndexOfProduct(products, product.id);
      if found.None? {
        return Err("Record to update not found.");
      }
      var row := products[found.value].(categories := RemoveId(product.categories, category.id));
      products := products[found.value := row];
      r := Ok(row);
    }

    /** `deleteCategoryFromAllProducts`, as written: pages of 50 from page 0,
        each fetched page stripped product by product, until a short page. */
    method DeleteCategoryFromAllProducts(category: Category)
      requires Valid() && category.id != ""
      modifies this
      ensures Valid()
      ensures products == SweepFrom(old(products), category.id, 0)
    {
      var cid := category.id;
      var page: nat := 0;
      ghost var target := SweepFrom(products, cid, 0);
      while true
        invariant Valid()
        invariant SweepFrom(products, cid, page) == target
        decreases |InCategory(products, cid)|
      {
        SweepFetch(products, cid, page);
        var result := GetAllProducts(products, Some(cid), Some(page), Some(SWEEP_PAGE_SIZE));
        var data := result.value.data;
        SweepRound(products, cid, page);
        StripPage(data, category);
        if |data| < SWEEP_PAGE_SIZE {
          break;
        }
        page := page + 1;
      }
    }

    /** The inner `for` of the sweep: `removeCategoryFromProduct` on each
        fetched product in turn. */
    method StripPage(data: seq<Product>, category: Category)
      requires Valid() && forall q :: 0 <= q < |data| ==> data[q] in products
      modifies this
      ensures Valid()
      ensures products == Strip(old(products), category.id, IdSet(data))
    {
      ghost var start := products;
      var k := 0;
      while k < |data|
        invariant 0 <= k <= |data|
        invariant Valid()
        invariant products == Strip(start, category.id, IdSet(data[..k]))
      {
        StripStep(start, category.id, data, k);
        var _ := RemoveCategoryFromProduct(data[k], category);
        k := k + 1;
      }
      assert data[..k] == data;
    }
  }

  /** One removal inside a fetched page: the row of `data[k]` sits where it sat
      when the page was fetched, and stripping it extends the stripped set by
      its id. */
  lemma StripStep(start: seq<Product>, cid: string, data: seq<Product>, k: nat)
    requires UniqueProductIds(start)
    requires k < |data| && forall q :: 0 <= q < |data| ==> data[q] in start
    ensures var now := Strip(start, cid, IdSet(data[..k]));
      && UniqueProductIds(now)
      && IndexOfProduct(now, data[k].id).Some?
      && var j := IndexOfProduct(now, data[k].id).value;
         now[j := now[j].(categories := RemoveId(data[k].categories, cid))] == Strip(start, cid, IdSet(data[..k + 1]))
  {
    var sel := IdSet(data[..k]);
    var now := Strip(start, cid, sel);
    var m := IndexOf(start, data[k]);
    StripKeepsIds(start, cid, sel);
    assert now[m].id == data[k].id;
    var j := IndexOfProduct(now, data[k].id).value;
    assert j == m;
    assert IdSet(data[..k + 1]) == sel + {data[k].id} by {
      IdSetSnoc(data, k);
    }
    assert now[j].(categories := RemoveId(data[k].categories, cid)) == StripOne(start[m], cid);
    StripAddOne(start, cid, sel, m);
  }

  /** Stripping keeps every id where it was. */
  lemma StripKeepsIds(products: seq<Product>, cid: string, sel: set<string>)
    requires UniqueProductIds(products)
    ensures UniqueProductIds(Strip(products, cid, sel))
    ensures forall i :: 0 <= i < |products| ==> Strip(products, cid, sel)[i].id == products[i].id
  {
  }

  lemma IdSetSnoc(data: seq<Product>, k: nat)
    requires k < |data|
    ensures IdSet(data[..k + 1]) == IdSet(data[..k]) + {data[k].id}
  {
    var a := data[..k];
    var b := data[..k + 1];
    assert b == a + [data[k]];
    forall x | x in IdSet(b) ensures x in IdSet(a) + {data[k].id} {
      var i :| 0 <= i < |b| && b[i].id == x;
      if i < k {
        assert a[i] == b[i];
      }
    }
    forall x | x in IdSet(a) ensures x in IdSet(b) {
      var i :| 0 <= i < |a| && a[i].id == x;
      assert b[i] == a[i];
    }
  }

  /** Stripping one more product, whose id is unique, is updating its row. */
  lemma StripAddOne(start: seq<Product>, cid: string, sel: set<string>, m: nat)
    requires UniqueProductIds(start) && m < |start|
    ensures Strip(start, cid, sel)[m := StripOne(start[m], cid)] == Strip(start, cid, sel + {start[m].id})
  {
    var before := Strip(start, cid, sel);
    var a := before[m := StripOne(start[m], cid)];
    var wider := sel + {start[m].id};
    var b := Strip(start, cid, wider);
    forall i | 0 <= i < |start| ensures a[i] == b[i] {
      if i == m {
        assert start[i].id in wider;
      } else {
        assert start[i].id != start[m].id;
        assert a[i] == before[i];
        assert (start[i].id in wider) == (start[i].id in sel);
      }
    }
    assert |a| == |b|;
  }
}
