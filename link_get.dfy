/**
 * link_get.py: walks the catalogue tree read from ids.json and emits one
 * search URL per leaf category. Reading and writing the files and printing
 * are left out; the parsed JSON is the input and the URL list the result.
 * `urllib.parse.quote` is a parameter, `quote`.
 */
module LinkGet {
  import opened Wrappers
  import opened Text

  /** A catalogue node. A missing, empty or otherwise falsy `items` is the
      empty list: all three make the node a leaf. */
  datatype Node = Node(id: Option<string>, items: seq<Node>)

  /** The parsed top level of the file. A dict without `items` and any
      other JSON value are `Other`. */
  datatype Input = Catalogue(items: seq<Node>) | NodeList(nodes: seq<Node>) | Other

  const CATEGORY_TAG := ":category:"
  const URL_HEAD := "https://kaspi.kz/yml/product-view/pl/results?page=1&q=%3Acategory%3A"
  const URL_TAIL := "%3AavailableInZones%3AMagnum_ZONE1&text&sort=relevance&qs&requestId=c82660e6e6385aad26625b93309e246e&ui=d&i=-1&c=750000000"

  predicate IsLeaf(n: Node) { n.items == [] }

  /** A leaf whose id names a category. */
  predicate IsCategoryLeaf(n: Node) {
    IsLeaf(n) && n.id.Some? && StartsAt(n.id.value, 0, CATEGORY_TAG)
  }

  /** The category name: the id with every tag removed. */
  function CategoryOf(id: string): string {
    ReplaceAll(id, CATEGORY_TAG, "")
  }

  /** The URL emitted for a category leaf. */
  function LeafUrl(quote: string -> string, id: string): (u: string)
    ensures StartsAt(u, 0, URL_HEAD) && |u| == |URL_HEAD| + |quote(CategoryOf(id))| + |URL_TAIL|
    ensures u[|URL_HEAD| + |quote(CategoryOf(id))|..] == URL_TAIL
  {
    var u := URL_HEAD + quote(CategoryOf(id)) + URL_TAIL;
    assert u[..|URL_HEAD|] == URL_HEAD;
    u
  }

  /** What visiting one node appends: its subtree's URLs if it has
      children, its own URL if it is a category leaf, nothing otherwise. */
  function Visit(quote: string -> string, n: Node): seq<string>
    decreases n, 1
  {
    if !IsLeaf(n) then Walk(quote, n.items)
    else if IsCategoryLeaf(n) then [LeafUrl(quote, n.id.value)]
    else []
  }

  /** What `find_leaf_categories(items)` appends, node by node. */
  function Walk(quote: string -> string, items: seq<Node>): seq<string>
    decreases items, 0
  {
    if items == [] then [] else Walk(quote, items[..|items| - 1]) + Visit(quote, items[|items| - 1])
  }

  /** The nodes to start from: the top-level `items` of a dict, the list
      itself, or none. */
  function TopLevel(data: Input): seq<Node> {
    match data
    case Catalogue(items) => items
    case NodeList(nodes) => nodes
    case Other => []
  }

  /** `find_leaf_categories`: appends to `urls` the URL of every category
      leaf below `items`, depth first. */
  method FindLeafCategories(quote: string -> string, items: seq<Node>, urls: seq<string>) returns (urls': seq<string>)
    ensures urls' == urls + Walk(quote, items)
    decreases items, 0
  {
    urls' := urls;
    for i := 0 to |items|
      invariant urls' == urls + Walk(quote, items[..i])
    {
      ghost var before := urls';
      urls' := VisitItem(quote, items[i], urls');
      WalkStep(quote, items, i, urls, before, urls');
    }
    assert items[..|items|] == items;
  }

  /** One turn of the loop: go deeper, or emit the leaf's URL. */
  method VisitItem(quote: string -> string, item: Node, urls: seq<string>) returns (urls': seq<string>)
    ensures urls' == urls + Visit(quote, item)
    decreases item, 1
  {
    urls' := urls;
    if item.items != [] {
      urls' := FindLeafCategories(quote, item.items, urls);
    } else if item.id.Some? && StartsAt(item.id.value, 0, CATEGORY_TAG) {
      urls' := urls + [LeafUrl(quote, item.id.value)];
    }
  }

  lemma WalkStep(quote: string -> string, items: seq<Node>, i: nat, urls: seq<string>, before: seq<string>, after: seq<string>)
    requires i < |items|
    requires before == urls + Walk(quote, items[..i])
    requires after == before + Visit(quote, items[i])
    ensures after == urls + Walk(quote, items[..i + 1])
  {
    assert items[..i + 1][..i] == items[..i];
  }

  /** `generate_urls` without the files: the walk from the top level. */
  method GenerateUrls(quote: string -> string, data: Input) returns (urls: seq<string>)
    ensures urls == Walk(quote, TopLevel(data))
  {
    urls := [];
    match data {
      case Catalogue(items) =>
        urls := FindLeafCategories(quote, items, urls);
      case NodeList(nodes) =>
        urls := FindLeafCategories(quote, nodes, urls);
      case Other =>
    }
  }

  // ---------------------------------------------------------------------
  // The walk is a pre-order listing of the category leaves
  // ---------------------------------------------------------------------

  /** The leaves below `items`, left to right, depth first: an independent
      reference for the order of the output. */
  function LeavesOf(items: seq<Node>): seq<Node>
    decreases items
  {
    if items == [] then []
    else
      var n := items[0];
      (if IsLeaf(n) then [n] else LeavesOf(n.items)) + LeavesOf(items[1..])
  }

  /** The URLs of the category leaves among `leaves`, in order. */
  function CategoryUrls(quote: string -> string, leaves: seq<Node>): (r: seq<string>)
    ensures |r| <= |leaves|
  {
    if leaves == [] then []
    else (if IsCategoryLeaf(leaves[0]) then [LeafUrl(quote, leaves[0].id.value)] else [])
         + CategoryUrls(quote, leaves[1..])
  }

  lemma {:induction false} CategoryUrlsAppend(quote: string -> string, a: seq<Node>, b: seq<Node>)
    ensures CategoryUrls(quote, a + b) == CategoryUrls(quote, a) + CategoryUrls(quote, b)
  {
    if a != [] {
      assert (a + b)[0] == a[0];
      assert (a + b)[1..] == a[1..] + b;
      CategoryUrlsAppend(quote, a[1..], b);
    } else {
      assert a + b == b;
    }
  }

  /** The walk visits the nodes of a list one after the other. */
  lemma {:induction false} WalkAppend(quote: string -> string, a: seq<Node>, b: seq<Node>)
    ensures Walk(quote, a + b) == Walk(quote, a) + Walk(quote, b)
    decreases b
  {
    if b == [] {
      assert a + b == a;
    } else {
      var init := b[..|b| - 1];
      assert a + b == (a + init) + [b[|b| - 1]];
      assert (a + b)[..|a + b| - 1] == a + init;
      WalkAppend(quote, a, init);
    }
  }

  /** The walk emits exactly the URLs of the category leaves, in pre-order:
      inner nodes contribute nothing of their own, and a leaf that is not a
      category contributes nothing. */
  lemma {:induction false} WalkIsPreorder(quote: string -> string, items: seq<Node>)
    ensures Walk(quote, items) == CategoryUrls(quote, LeavesOf(items))
    decreases items
  {
    if items != [] {
      var n := items[0];
      assert items == [n] + items[1..];
      WalkAppend(quote, [n], items[1..]);
      WalkIsPreorder(quote, items[1..]);
      assert Walk(quote, [n]) == Visit(quote, n) by {
        assert [n][..0] == [];
      }
      var here := if IsLeaf(n) then [n] else LeavesOf(n.items);
      if !IsLeaf(n) {
        WalkIsPreorder(quote, n.items);
      }
      CategoryUrlsAppend(quote, here, LeavesOf(items[1..]));
    }
  }

  /** Consequently there is at most one URL per leaf. */
  lemma AtMostOneUrlPerLeaf(quote: string -> string, items: seq<Node>)
    ensures |Walk(quote, items)| <= |LeavesOf(items)|
  {
    WalkIsPreorder(quote, items);
  }

  /** The id of a node with children is never looked at. */
  lemma InnerIdIgnored(quote: string -> string, a: Option<string>, b: Option<string>, items: seq<Node>)
    requires items != []
    ensures Visit(quote, Node(a, items)) == Visit(quote, Node(b, items)) == Walk(quote, items)
  {
  }

  /** An id made of the tag and a name without the tag yields that name. */
  lemma CategoryOfTaggedName(name: string)
    requires !Contains(name, CATEGORY_TAG)
    ensures CategoryOf(CATEGORY_TAG + name) == name
  {
    var id := CATEGORY_TAG + name;
    assert StartsAt(id, 0, CATEGORY_TAG);
    assert IndexOf(id, CATEGORY_TAG) == Some(0);
    assert id[|CATEGORY_TAG|..] == name;
  }
}
