/** The catalog joins of src/helpers/products.helpers.ts and
    src/helpers/categories.helpers.ts: the product → variant → part →
    customization → option tree assembled from flat rows by parent id, and the
    two directions of the product/category membership. */
module Catalog {
  import opened Wrappers
  import opened Seqs

  datatype Category = Category(id: string, categoryName: string)

  /** A product row; `categories` is its array of category ids. */
  datatype Product = Product(id: string, productCode: Option<string>, productName: string,
                             productDescription: Option<string>, imageLink: Option<string>,
                             categories: seq<string>)

  datatype Variant = Variant(id: string, productId: string, name: string)
  datatype Part = Part(id: string, variantId: string, name: string)
  datatype Customization = Customization(id: string, partId: string, name: string)
  datatype CustomizationOption = CustomizationOption(id: string, customizationId: string, name: string)

  /** `{...customization, options}` and the like: the row unchanged plus its children. */
  datatype CustomizationData = CustomizationData(customization: Customization, options: seq<CustomizationOption>)
  datatype PartData = PartData(part: Part, customizations: seq<CustomizationData>)
  datatype VariantData = VariantData(variant: Variant, parts: seq<PartData>)

  /** The options whose `customizationId` is `id`, in input order. */
  function OptionsOf(options: seq<CustomizationOption>, id: string): (r: seq<CustomizationOption>)
    ensures forall k :: 0 <= k < |r| ==> r[k].customizationId == id && r[k] in options
    ensures forall k :: 0 <= k < |options| && options[k].customizationId == id ==> options[k] in r
  {
    Filter(options, (o: CustomizationOption) => o.customizationId == id)
  }

  /** The customization items whose `partId` is `id`, in input order. */
  function CustomizationsOf(items: seq<CustomizationData>, id: string): (r: seq<CustomizationData>)
    ensures forall k :: 0 <= k < |r| ==> r[k].customization.partId == id && r[k] in items
    ensures forall k :: 0 <= k < |items| && items[k].customization.partId == id ==> items[k] in r
  {
    Filter(items, (c: CustomizationData) => c.customization.partId == id)
  }

  /** The part items whose `variantId` is `id`, in input order. */
  function PartsOf(items: seq<PartData>, id: string): (r: seq<PartData>)
    ensures forall k :: 0 <= k < |r| ==> r[k].part.variantId == id && r[k] in items
    ensures forall k :: 0 <= k < |items| && items[k].part.variantId == id ==> items[k] in r
  {
    Filter(items, (p: PartData) => p.part.variantId == id)
  }

  /** A customization keeps each matching option exactly as often as it is
      given, and no option of another customization. */
  lemma OptionsOfExact(options: seq<CustomizationOption>, id: string, o: CustomizationOption)
    ensures multiset(OptionsOf(options, id))[o] == if o.customizationId == id then multiset(options)[o] else 0
  {
    FilterMultiplicity(options, (x: CustomizationOption) => x.customizationId == id, o);
  }

  /** `getCustomizationDataItemsFromCustomizationAndOptions`: one item per
      customization, in input order, carrying its options. */
  method CustomizationDataItems(customizations: seq<Customization>, options: seq<CustomizationOption>)
    returns (items: seq<CustomizationData>)
    ensures |items| == |customizations|
    ensures forall i :: 0 <= i < |items| ==>
      items[i] == CustomizationData(customizations[i], OptionsOf(options, customizations[i].id))
  {
    items := [];
    var i := 0;
    while i < |customizations|
      invariant 0 <= i <= |customizations|
      invariant |items| == i
      invariant forall k :: 0 <= k < i ==>
        items[k] == CustomizationData(customizations[k], OptionsOf(options, customizations[k].id))
    {
      var filtered := OptionsOf(options, customizations[i].id);
      items := items + [CustomizationData(customizations[i], filtered)];
      i := i + 1;
    }
  }

  /** `getPartDataItemsFromPartsAndCustomizationData`: one item per part, in
      input order, carrying its customization items. */
  method PartDataItems(parts: seq<Part>, customizationItems: seq<CustomizationData>)
    returns (items: seq<PartData>)
    ensures |items| == |parts|
    ensures forall i :: 0 <= i < |items| ==>
      items[i] == PartData(parts[i], CustomizationsOf(customizationItems, parts[i].id))
  {
    items := [];
    var i := 0;
    while i < |parts|
      invariant 0 <= i <= |parts|
      invariant |items| == i
      invariant forall k :: 0 <= k < i ==>
        items[k] == PartData(parts[k], CustomizationsOf(customizationItems, parts[k].id))
    {
      var filtered := CustomizationsOf(customizationItems, parts[i].id);
      items := items + [PartData(parts[i], filtered)];
      i := i + 1;
    }
  }

  /** `getVariantDataItemsFromVariantsAndPartDataItems`: one item per variant,
      in input order, carrying its part items. */
  method VariantDataItems(variants: seq<Variant>, partItems: seq<PartData>)
    returns (items: seq<VariantData>)
    ensures |items| == |variants|
    ensures forall i :: 0 <= i < |items| ==>
      items[i] == VariantData(variants[i], PartsOf(partItems, variants[i].id))
  {
    items := [];
    var i := 0;
    while i < |variants|
      invariant 0 <= i <= |variants|
      invariant |items| == i
      invariant forall k :: 0 <= k < i ==>
        items[k] == VariantData(variants[k], PartsOf(partItems, variants[k].id))
    {
      var filtered := PartsOf(partItems, variants[i].id);
      items := items + [VariantData(variants[i], filtered)];
      i := i + 1;
    }
  }

  /** An option whose `customizationId` names no given customization hangs
      under none of them: it is dropped from the tree. */
  lemma OrphanOptionDropped(customizations: seq<Customization>, options: seq<CustomizationOption>, o: CustomizationOption)
    requires forall i :: 0 <= i < |customizations| ==> customizations[i].id != o.customizationId
    ensures forall i :: 0 <= i < |customizations| ==> o !in OptionsOf(options, customizations[i].id)
  {
    forall i | 0 <= i < |customizations|
      ensures o !in OptionsOf(options, customizations[i].id)
    {
      OptionsOfExact(options, customizations[i].id, o);
    }
  }

  /** Every key maps to a category carrying that id. */
  predicate KeyConsistent(m: map<string, Category>) {
    forall id :: id in m ==> m[id].id == id
  }

  /** `new Map(categories.map(c => [c.id, c]))`: every given id is a key, and a
      key maps to a given category carrying it. */
  function CategoryMap(categories: seq<Category>): (m: map<string, Category>)
    ensures KeyConsistent(m)
    ensures forall i :: 0 <= i < |categories| ==> categories[i].id in m
    ensures forall id :: id in m ==> m[id] in categories
  {
    if categories == [] then map[]
    else
      var init := categories[..|categories| - 1];
      var last := categories[|categories| - 1];
      assert forall i :: 0 <= i < |init| ==> init[i] == categories[i];
      CategoryMap(init)[last.id := last]
  }

  /** When the categories repeat an id, the later category wins: the map holds
      the last category with each id. */
  lemma {:induction false} CategoryMapLast(categories: seq<Category>, i: nat)
    requires i < |categories|
    requires forall j :: i < j < |categories| ==> categories[j].id != categories[i].id
    ensures CategoryMap(categories)[categories[i].id] == categories[i]
  {
    var init := categories[..|categories| - 1];
    if i < |categories| - 1 {
      CategoryMapLast(init, i);
    }
  }

  /** The ids the map knows. */
  function KnownIn(m: map<string, Category>): string -> bool {
    id => id in m
  }

  /** The ids replaced, in order, by their categories; ids the map lacks are
      dropped (`.map(get).filter(Boolean)`). */
  function ResolveCategories(ids: seq<string>, m: map<string, Category>): (r: seq<Category>)
    requires KeyConsistent(m)
    ensures var known := Filter(ids, KnownIn(m));
      |r| == |known| && forall k :: 0 <= k < |r| ==> known[k] in m && r[k] == m[known[k]]
    ensures |r| <= |ids|
    ensures forall k :: 0 <= k < |r| ==> r[k].id in ids && r[k].id in m && r[k] == m[r[k].id]
    ensures forall j :: 0 <= j < |ids| && ids[j] in m ==> m[ids[j]] in r
  {
    if ids == [] then []
    else
      var rest := ResolveCategories(ids[1..], m);
      assert forall j :: 1 <= j < |ids| ==> ids[j] == ids[1..][j - 1];
      assert Filter(ids, KnownIn(m)) == (if ids[0] in m then [ids[0]] else []) + Filter(ids[1..], KnownIn(m));
      (if ids[0] in m then [m[ids[0]]] else []) + rest
  }

  /** With every id known, nothing is dropped and the order is the ids' order. */
  lemma ResolveAllKnown(ids: seq<string>, m: map<string, Category>)
    requires KeyConsistent(m)
    requires forall j :: 0 <= j < |ids| ==> ids[j] in m
    ensures |ResolveCategories(ids, m)| == |ids|
    ensures forall j :: 0 <= j < |ids| ==> ResolveCategories(ids, m)[j] == m[ids[j]]
  {
    FilterAll(ids, KnownIn(m));
  }

  /** `{...product, categories: Category[]}`. */
  datatype ProductWithCategories = ProductWithCategories(product: Product, categories: seq<Category>)

  /** `mapCategoriesToProducts`: every product, in order, with its category ids
      resolved against the given categories. */
  function MapCategoriesToProducts(products: seq<Product>, categories: seq<Category>): (r: seq<ProductWithCategories>)
    ensures |r| == |products|
    ensures forall i :: 0 <= i < |r| ==> r[i].product == products[i]
    ensures forall i :: 0 <= i < |r| ==>
      r[i].categories == ResolveCategories(products[i].categories, CategoryMap(categories))
  {
    seq(|products|, i requires 0 <= i < |products| =>
      ProductWithCategories(products[i], ResolveCategories(products[i].categories, CategoryMap(categories))))
  }

  /** A resolved category is one of the given categories, and one whose id the
      product lists. */
  lemma ResolvedCategoriesAreListed(products: seq<Product>, categories: seq<Category>, i: nat, k: nat)
    requires i < |products| && k < |MapCategoriesToProducts(products, categories)[i].categories|
    ensures var c := MapCategoriesToProducts(products, categories)[i].categories[k];
      c in categories && c.id in products[i].categories
  {
  }

  /** The number of times `id` occurs in `ids`. */
  function Occurrences(ids: seq<string>, id: string): (n: nat)
    ensures n <= |ids|
    ensures n == 0 <==> id !in ids
  {
    if ids == [] then 0 else (if ids[0] == id then 1 else 0) + Occurrences(ids[1..], id)
  }

  function Repeat(p: Product, n: nat): (r: seq<Product>)
    ensures |r| == n && forall k :: 0 <= k < n ==> r[k] == p
  {
    if n == 0 then [] else Repeat(p, n - 1) + [p]
  }

  /** The products listed under category `id`: each product, in order, once per
      occurrence of `id` in its categories array. */
  function ProductsUnder(products: seq<Product>, id: string): (r: seq<Product>)
    ensures forall k :: 0 <= k < |r| ==> r[k] in products && id in r[k].categories
  {
    if products == [] then []
    else
      var init := products[..|products| - 1];
      var last := products[|products| - 1];
      assert forall k :: 0 <= k < |init| ==> init[k] in products;
      ProductsUnder(init, id) + Repeat(last, Occurrences(last.categories, id))
  }

  lemma ProductsUnderSnoc(products: seq<Product>, p: Product, id: string)
    ensures ProductsUnder(products + [p], id) == ProductsUnder(products, id) + Repeat(p, Occurrences(p.categories, id))
  {
    assert (products + [p])[..|products|] == products;
  }

  /** A product is listed under a category exactly when it is given and lists
      that category's id. */
  lemma {:induction false} ProductsUnderMembers(products: seq<Product>, id: string, p: Product)
    ensures p in ProductsUnder(products, id) <==> p in products && id in p.categories
  {
    if products != [] {
      var init := products[..|products| - 1];
      ProductsUnderMembers(init, id, p);
      assert products == init + [products[|products| - 1]];
    }
  }

  /** A product whose array repeats the id is listed that many times. */
  lemma RepeatedIdRepeatsProduct(p: Product, id: string)
    requires p.categories == [id, id]
    ensures ProductsUnder([p], id) == [p, p]
  {
    assert [p][..0] == [];
    assert Occurrences(p.categories, id) == 2 by {
      assert p.categories[1..] == [id];
      assert p.categories[1..][1..] == [];
    }
  }

  /** The dictionary lookup `categoryProductMap[id] || []`. */
  function ListedUnder(table: map<string, seq<Product>>, id: string): seq<Product> {
    if id in table then table[id] else []
  }

  /** `{...category, products}`. */
  datatype CategoryWithProducts = CategoryWithProducts(category: Category, products: seq<Product>)

  /** The inner `forEach` of `mapProductsToCategories`: append `p` to the list
      of each id in its categories array, creating the list on first use. */
  method AddToLists(table: map<string, seq<Product>>, p: Product) returns (t: map<string, seq<Product>>)
    ensures forall id :: ListedUnder(t, id) == ListedUnder(table, id) + Repeat(p, Occurrences(p.categories, id))
  {
    t := table;
    var j := 0;
    while j < |p.categories|
      invariant 0 <= j <= |p.categories|
      invariant forall id :: ListedUnder(t, id) == ListedUnder(table, id) + Repeat(p, Occurrences(p.categories[..j], id))
    {
      var cid := p.categories[j];
      ghost var before := t;
      var list := if cid in t then t[cid] else [];
      t := t[cid := list + [p]];
      assert p.categories[..j + 1] == p.categories[..j] + [cid];
      ListOneMore(table, before, t, p, p.categories[..j], cid);
      j := j + 1;
    }
    assert p.categories[..j] == p.categories;
  }

  /** The outer `forEach` of `mapProductsToCategories`: the dictionary lists,
      under every id, the products carrying it, once per occurrence. */
  method FillCategoryTable(products: seq<Product>) returns (table: map<string, seq<Product>>)
    ensures forall id :: ListedUnder(table, id) == ProductsUnder(products, id)
  {
    table := map[];
    var i := 0;
    while i < |products|
      invariant 0 <= i <= |products|
      invariant forall id :: ListedUnder(table, id) == ProductsUnder(products[..i], id)
    {
      table := AddToLists(table, products[i]);
      assert products[..i + 1] == products[..i] + [products[i]];
      forall id
        ensures ListedUnder(table, id) == ProductsUnder(products[..i + 1], id)
      {
        ProductsUnderSnoc(products[..i], products[i], id);
      }
      i := i + 1;
    }
    assert products[..i] == products;
  }

  /** `mapProductsToCategories`: fill the dictionary from category id to
      products in a loop over the products, then give every category, in
      order, its list or []. */
  method MapProductsToCategories(categories: seq<Category>, products: seq<Product>)
    returns (r: seq<CategoryWithProducts>)
    ensures |r| == |categories|
    ensures forall i :: 0 <= i < |r| ==>
      r[i] == CategoryWithProducts(categories[i], ProductsUnder(products, categories[i].id))
  {
    var listed := FillCategoryTable(products);
    r := [];
    var k := 0;
    while k < |categories|
      invariant 0 <= k <= |categories|
      invariant |r| == k
      invariant forall q :: 0 <= q < k ==>
        r[q] == CategoryWithProducts(categories[q], ProductsUnder(products, categories[q].id))
    {
      var members := ListedUnder(listed, categories[k].id);
      r := r + [CategoryWithProducts(categories[k], members)];
      k := k + 1;
    }
  }

  /** One more occurrence of `cid` lists `p` once more under `cid` only. */
  lemma ListOneMore(table: map<string, seq<Product>>, before: map<string, seq<Product>>,
                    after: map<string, seq<Product>>, p: Product, prefix: seq<string>, cid: string)
    requires after == before[cid := ListedUnder(before, cid) + [p]]
    requires forall id :: ListedUnder(before, id) == ListedUnder(table, id) + Repeat(p, Occurrences(prefix, id))
    ensures forall id :: ListedUnder(after, id) == ListedUnder(table, id) + Repeat(p, Occurrences(prefix + [cid], id))
  {
    forall id ensures ListedUnder(after, id) == ListedUnder(table, id) + Repeat(p, Occurrences(prefix + [cid], id)) {
      ListOneMoreAt(ListedUnder(table, id), before, after, p, prefix, cid, id);
    }
  }

  lemma ListOneMoreAt(base: seq<Product>, before: map<string, seq<Product>>,
                      after: map<string, seq<Product>>, p: Product, prefix: seq<string>, cid: string, id: string)
    requires after == before[cid := ListedUnder(before, cid) + [p]]
    requires ListedUnder(before, id) == base + Repeat(p, Occurrences(prefix, id))
    ensures ListedUnder(after, id) == base + Repeat(p, Occurrences(prefix + [cid], id))
  {
    OccurrencesSnoc(prefix, cid, id);
    if id == cid {
      var n := Occurrences(prefix, id);
      assert Repeat(p, n + 1) == Repeat(p, n) + [p];
      assert ListedUnder(after, id) == (base + Repeat(p, n)) + [p];
      assert (base + Repeat(p, n)) + [p] == base + (Repeat(p, n) + [p]);
    } else {
      assert ListedUnder(after, id) == ListedUnder(before, id);
    }
  }

  lemma {:induction false} OccurrencesSnoc(ids: seq<string>, x: string, id: string)
    ensures Occurrences(ids + [x], id) == Occurrences(ids, id) + (if x == id then 1 else 0)
  {
    if ids == [] {
      assert ([] + [x])[1..] == [];
    } else {
      assert (ids + [x])[1..] == ids[1..] + [x];
      OccurrencesSnoc(ids[1..], x, id);
    }
  }

  /** `{productId, productName}`. */
  datatype NavbarProduct = NavbarProduct(productId: string, productName: string)

  datatype NavbarGroup = NavbarGroup(categoryId: string, categoryName: string, products: seq<NavbarProduct>)

  function Summaries(products: seq<Product>): (r: seq<NavbarProduct>)
    ensures |r| == |products|
    ensures forall k :: 0 <= k < |r| ==> r[k] == NavbarProduct(products[k].id, products[k].productName)
  {
    seq(|products|, k requires 0 <= k < |products| => NavbarProduct(products[k].id, products[k].productName))
  }

  /** `categories.includes(id)` / `categories: { has: id }`. */
  function HasCategory(id: string): Product -> bool {
    (p: Product) => id in p.categories
  }

  /** The products whose categories array contains `id`, in order. */
  function InCategory(products: seq<Product>, id: string): (r: seq<Product>)
    ensures forall k :: 0 <= k < |r| ==> id in r[k].categories && r[k] in products
    ensures forall k :: 0 <= k < |products| && id in products[k].categories ==> products[k] in r
  {
    Filter(products, HasCategory(id))
  }

  /** `groupProductsByCategoryForNavbarData`: per category, in order, the
      products that list it (`includes`), each once. */
  function GroupProductsForNavbar(categories: seq<Category>, products: seq<Product>): (r: seq<NavbarGroup>)
    ensures |r| == |categories|
    ensures forall i :: 0 <= i < |r| ==>
      && r[i].categoryId == categories[i].id && r[i].categoryName == categories[i].categoryName
      && r[i].products == Summaries(InCategory(products, categories[i].id))
  {
    seq(|categories|, i requires 0 <= i < |categories| =>
      NavbarGroup(categories[i].id, categories[i].categoryName, Summaries(InCategory(products, categories[i].id))))
  }

  /** A navbar group lists each product at most as often as it is given, however
      often the product repeats the id; and every listed product has that id. */
  lemma NavbarListsOncePerProduct(products: seq<Product>, id: string, p: Product)
    ensures multiset(InCategory(products, id))[p] == if id in p.categories then multiset(products)[p] else 0
  {
    FilterMultiplicity(products, HasCategory(id), p);
  }

  /** The two directions agree on who belongs where: a product is under a
      category in the dictionary view exactly when it is in its navbar group. */
  lemma NavbarAgreesWithDictionary(products: seq<Product>, id: string, p: Product)
    ensures p in ProductsUnder(products, id) <==> p in InCategory(products, id)
  {
    ProductsUnderMembers(products, id, p);
    NavbarListsOncePerProduct(products, id, p);
  }
}
