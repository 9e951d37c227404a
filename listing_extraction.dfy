/**
 * `fetch_depop_listings` (download_from_depop.py): the profile check, the
 * feed loader, and the walk over the snapshot's list items that collects
 * unsold product links without repeats.
 *
 * The parsed page is abstracted as the sequence of its `li[class*="listItem"]`
 * elements in document order, and `urljoin` as an uninterpreted function
 * `join(base, href)` about which nothing (not even injectivity) is assumed.
 */
module ListingExtraction {
  import opened Wrappers
  import opened Ascii
  import opened Search
  import FeedConvergence

  const BaseUrl: string := "https://www.depop.com"

  /** The exact text of the marker that flags a sold item. */
  const SoldMarker: string := "Sold"

  /** The substring a product anchor's `href` must contain. */
  const ProductPath: string := "/products/"

  /** One list item of the snapshot: its text nodes and the `href` of each of its anchors,
      both in document order. */
  datatype Item = Item(textNodes: seq<string>, hrefs: seq<string>)

  /** What the profile page reported after navigation. */
  datatype ProfilePage = ProfilePage(status: int, notFoundVisible: bool, shopHeaderVisible: bool)

  /** The profile check: not a 404, no "Page not found" text, and the shop header is visible. */
  predicate IsValidProfile(page: ProfilePage) {
    !(page.status == 404 || page.notFoundVisible || !page.shopHeaderVisible)
  }

  /** `find(string="Sold")`: some text node of the item is exactly the marker. */
  predicate IsSold(item: Item) {
    SoldMarker in item.textNodes
  }

  /** The selector test `href*="/products/"`: the href contains the product path. */
  predicate IsProductHref(href: string) {
    Contains(href, ProductPath)
  }

  /** `select_one('a[href*="/products/"]')`: the href of the item's first product anchor. */
  function ProductHref(item: Item): (r: Option<string>)
    ensures r.Some? ==> r.value in item.hrefs && IsProductHref(r.value)
    ensures r.Some? ==> exists i :: 0 <= i < |item.hrefs| && item.hrefs[i] == r.value
                                  && forall j :: 0 <= j < i ==> !IsProductHref(item.hrefs[j])
    ensures r.None? <==> forall h :: h in item.hrefs ==> !IsProductHref(h)
  {
    match Find(item.hrefs, IsProductHref)
    case None => None
    case Some(i) => Some(item.hrefs[i])
  }

  /** The absolute URL an item contributes, if any: unsold items with a product anchor only. */
  function Link(item: Item, join: (string, string) -> string): (r: Option<string>)
    ensures r.Some? <==> !IsSold(item) && ProductHref(item).Some?
    ensures r.Some? ==> r.value == join(BaseUrl, ProductHref(item).value)
  {
    if IsSold(item) then None
    else match ProductHref(item)
      case None => None
      case Some(href) => Some(join(BaseUrl, href))
  }

  /** The link each item contributes, in document order. */
  function Links(items: seq<Item>, join: (string, string) -> string): seq<Option<string>> {
    seq(|items|, i requires 0 <= i < |items| => Link(items[i], join))
  }

  /** The walk with the `seen` check: each present link is appended unless it was
      collected already. */
  function Collect(links: seq<Option<string>>): seq<string> {
    if links == [] then []
    else
      var before := Collect(links[..|links| - 1]);
      match links[|links| - 1]
      case None => before
      case Some(u) => if u in before then before else before + [u]
  }

  /** The product list `fetch_depop_listings` builds from the snapshot's items. */
  function Listings(items: seq<Item>, join: (string, string) -> string): seq<string> {
    Collect(Links(items, join))
  }

  predicate NoDuplicates(s: seq<string>) {
    forall i, j :: 0 <= i < j < |s| ==> s[i] != s[j]
  }

  /** The test "this link is `u`", as a value that `Find` can use. */
  function IsLinkTo(u: string): Option<string> -> bool {
    link => link == Some(u)
  }

  /** The collected list never holds the same URL twice. */
  lemma {:induction false} CollectHasNoDuplicates(links: seq<Option<string>>)
    ensures NoDuplicates(Collect(links))
  {
    if links != [] {
      CollectHasNoDuplicates(links[..|links| - 1]);
    }
  }

  /** A URL is collected exactly when it is one of the links. */
  lemma {:induction false} CollectHasEveryLink(links: seq<Option<string>>, u: string)
    ensures u in Collect(links) <==> Some(u) in links
  {
    if links != [] {
      var init := links[..|links| - 1];
      CollectHasEveryLink(init, u);
      assert links == init + [links[|links| - 1]];
    }
  }

  /** The collected list is in order of first occurrence: of two collected URLs, the one
      listed first occurs earlier among the links than the other does. */
  lemma {:induction false} CollectInFirstOccurrenceOrder(links: seq<Option<string>>, i: nat, j: nat)
    requires i < j < |Collect(links)|
    ensures Find(links, IsLinkTo(Collect(links)[i])).Some?
    ensures Find(links, IsLinkTo(Collect(links)[j])).Some?
    ensures Find(links, IsLinkTo(Collect(links)[i])).value < Find(links, IsLinkTo(Collect(links)[j])).value
  {
    var init, last := links[..|links| - 1], links[|links| - 1];
    assert links == init + [last];
    var before, out := Collect(init), Collect(links);
    var ui, uj := out[i], out[j];
    FindAppend(init, last, IsLinkTo(ui));
    FindAppend(init, last, IsLinkTo(uj));
    if j < |before| {
      CollectInFirstOccurrenceOrder(init, i, j);
    } else {
      // uj is the newly appended last link, so no earlier link is uj
      assert last == Some(uj) && uj !in before;
      CollectHasEveryLink(init, uj);
      CollectHasEveryLink(init, ui);
      var a :| 0 <= a < |init| && init[a] == Some(ui);
      assert IsLinkTo(ui)(init[a]);
    }
  }

  /** Links that were all collected already change nothing when walked after them. */
  lemma {:induction false} CollectIgnoresCollectedLinks(links: seq<Option<string>>, more: seq<Option<string>>)
    requires forall i :: 0 <= i < |more| && more[i].Some? ==> more[i].value in Collect(links)
    ensures Collect(links + more) == Collect(links)
    decreases |more|
  {
    if more == [] {
      assert links + more == links;
    } else {
      var init := more[..|more| - 1];
      assert (links + more)[..|links + more| - 1] == links + init;
      CollectIgnoresCollectedLinks(links, init);
    }
  }

  /** A URL is listed exactly when some item links to it, so sold items and items
      without a product anchor contribute nothing. */
  lemma ListingsAreTheLinks(items: seq<Item>, join: (string, string) -> string, u: string)
    ensures u in Listings(items, join) <==> exists i :: 0 <= i < |items| && Link(items[i], join) == Some(u)
  {
    var links := Links(items, join);
    CollectHasEveryLink(links, u);
    if Some(u) in links {
      var i :| 0 <= i < |links| && links[i] == Some(u);
      assert Link(items[i], join) == Some(u);
    }
    if exists i :: 0 <= i < |items| && Link(items[i], join) == Some(u) {
      var i :| 0 <= i < |items| && Link(items[i], join) == Some(u);
      assert links[i] == Some(u);
    }
  }

  /** The list follows document order of first occurrence: of two listed URLs, the one
      listed first is linked by an earlier item than any item linking the other. */
  lemma ListingsInFirstOccurrenceOrder(items: seq<Item>, join: (string, string) -> string, i: nat, j: nat)
    requires i < j < |Listings(items, join)|
    ensures Find(Links(items, join), IsLinkTo(Listings(items, join)[i])).Some?
    ensures Find(Links(items, join), IsLinkTo(Listings(items, join)[j])).Some?
    ensures Find(Links(items, join), IsLinkTo(Listings(items, join)[i])).value
          < Find(Links(items, join), IsLinkTo(Listings(items, join)[j])).value
  {
    CollectInFirstOccurrenceOrder(Links(items, join), i, j);
  }

  /** Walking the same snapshot twice in a row gives the same list as walking it once. */
  lemma RescanAddsNothing(items: seq<Item>, join: (string, string) -> string)
    ensures Listings(items + items, join) == Listings(items, join)
  {
    var links := Links(items, join);
    assert Links(items + items, join) == links + links;
    forall i | 0 <= i < |links| && links[i].Some?
      ensures links[i].value in Collect(links)
    {
      CollectHasEveryLink(links, links[i].value);
    }
    CollectIgnoresCollectedLinks(links, links);
  }

  /** The sold test is an exact match on a whole text node: an item whose text reads
      "Sold out" is still collected, one with a text node "Sold" never is. */
  lemma SoldMarkerIsExact(href: string, join: (string, string) -> string)
    requires IsProductHref(href)
    ensures Listings([Item(["Sold out"], [href])], join) == [join(BaseUrl, href)]
    ensures Listings([Item(["Sold"], [href])], join) == []
  {
    var kept: seq<Option<string>> := [Some(join(BaseUrl, href))];
    var dropped: seq<Option<string>> := [None];
    assert Find([href], IsProductHref) == Some(0);
    assert "Sold out" != SoldMarker;
    assert Links([Item(["Sold out"], [href])], join) == kept;
    assert Links([Item(["Sold"], [href])], join) == dropped;
    assert kept[..|kept| - 1] == [] && dropped[..|dropped| - 1] == [];
    assert Collect(kept[..|kept| - 1]) == [];
  }

  /**
   * The extraction loop of `fetch_depop_listings`: walk the items in document
   * order, skip sold ones and ones without a product anchor, resolve the link
   * and append it when it is not yet in `seen`.
   */
  method ExtractListings(items: seq<Item>, join: (string, string) -> string) returns (products: seq<string>)
    ensures products == Listings(items, join)
  {
    products := [];
    var seen: set<string> := {};
    for n := 0 to |items|
      invariant products == Listings(items[..n], join)
      invariant seen == set u | u in products
    {
      assert Links(items[..n + 1], join)[..n] == Links(items[..n], join);
      var item := items[n];
      if IsSold(item) {
        continue;
      }
      var href := ProductHref(item);
      if href.Some? {
        var productLink := join(BaseUrl, href.value);
        if productLink !in seen {
          seen := seen + {productLink};
          products := products + [productLink];
        }
      }
    }
    assert items[..|items|] == items;
  }

  /** What `fetch_depop_listings` returns: [] for an invalid profile or an empty feed
      (the empty snapshot has no list items), otherwise the collected list. */
  function ListingsResult(profile: ProfilePage, anchorAppeared: bool, snapshot: seq<Item>, join: (string, string) -> string): seq<string>
  {
    if !IsValidProfile(profile) || !anchorAppeared then [] else Listings(snapshot, join)
  }

  /** The result is empty exactly when the profile is invalid, the feed is empty,
      or no item of the snapshot is unsold with a product anchor. */
  lemma ResultEmptyIff(profile: ProfilePage, anchorAppeared: bool, snapshot: seq<Item>, join: (string, string) -> string)
    ensures ListingsResult(profile, anchorAppeared, snapshot, join) == []
        <==> !IsValidProfile(profile) || !anchorAppeared
             || forall i :: 0 <= i < |snapshot| ==> IsSold(snapshot[i]) || ProductHref(snapshot[i]).None?
  {
    if IsValidProfile(profile) && anchorAppeared {
      var out := Listings(snapshot, join);
      if out != [] {
        ListingsAreTheLinks(snapshot, join, out[0]);
      }
      if exists i :: 0 <= i < |snapshot| && !IsSold(snapshot[i]) && ProductHref(snapshot[i]).Some? {
        var i :| 0 <= i < |snapshot| && !IsSold(snapshot[i]) && ProductHref(snapshot[i]).Some?;
        var u := Link(snapshot[i], join).value;
        ListingsAreTheLinks(snapshot, join, u);
      }
    }
  }

  /**
   * `fetch_depop_listings`: check the profile page, let the feed settle,
   * then extract. `snapshot` is the list items of the page once the loader
   * returns. When the loader runs and scrolls, some round `e` must bring its
   * stall counter to the threshold.
   */
  method FetchListings(profile: ProfilePage, anchorAppeared: bool, sample: nat -> nat, ghost e: nat,
                       snapshot: seq<Item>, join: (string, string) -> string)
    returns (products: seq<string>)
    requires IsValidProfile(profile) && anchorAppeared ==> FeedConvergence.Attempts(sample, e) >= FeedConvergence.MaxAttempts
    ensures products == ListingsResult(profile, anchorAppeared, snapshot, join)
  {
    if !IsValidProfile(profile) {
      return [];
    }
    var html := FeedConvergence.LoadProducts(anchorAppeared, sample, e);
    var items := if html.NoProducts? then [] else snapshot;
    products := ExtractListings(items, join);
    if products == [] {
      return [];
    }
  }
}
