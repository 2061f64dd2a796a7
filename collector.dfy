/**
 * `get_data`: walk the listing pages 1, 2, 3, ... until a page has no items,
 * turn every item into a flat record and group the records by display rank.
 *
 * The web request for one page is not modelled: the pages the server would
 * return are an input sequence, and any page past its end is empty. Python's
 * `float(...)` and `int(...)` are given as partial conversions; a conversion
 * that fails raises, which abandons the whole collection.
 */
module Collector {
  import opened Wrappers
  import opened Seqs
  import opened Records

  /** One listing object of the API response, with the fields `get_data` reads. */
  datatype Item = Item(
    displayRank: string,   // ranking.display_rank
    name: string,
    city: string,
    state: string,
    url: string,
    scoreText: string,     // schoolData.c_avg_acad_rep_score
    id: string,
    ficeCode: string
  )

  /** The `data.items` list of one response. */
  type Page = seq<Item>

  /** The error a failed `float(...)` or `int(...)` conversion raises, with the offending text. */
  datatype CollectError = BadScore(scoreText: string) | BadRank(rankText: string)

  /** `get_page(page)` for the 1-based page number `page`. */
  function Fetch(pages: seq<Page>, page: nat): Page
  {
    if 1 <= page <= |pages| then pages[page - 1] else []
  }

  /**
   * The dictionary literal built for one item. Its entries are evaluated in order,
   * so the score is converted before the rank.
   */
  function Normalize(item: Item, parseScore: string -> Option<real>, parseRank: string -> Option<int>)
    : Result<College, CollectError>
  {
    match parseScore(item.scoreText)
    case None => Failure(BadScore(item.scoreText))
    case Some(score) =>
      match parseRank(item.displayRank)
      case None => Failure(BadRank(item.displayRank))
      case Some(rank) =>
        Success(College(item.name, item.city, item.state, item.url, score, item.id, item.ficeCode, rank))
  }

  /**
   * An item converts exactly when both its score text and its rank text do. The
   * record then carries the item's text fields unchanged and the two converted
   * numbers; otherwise the error names the score text when that fails, whether
   * or not the rank text would have converted, and the rank text only when the
   * score converted.
   */
  lemma NormalizeOutcome(item: Item, parseScore: string -> Option<real>, parseRank: string -> Option<int>)
    ensures var r := Normalize(item, parseScore, parseRank);
      && (r.Success? <==> parseScore(item.scoreText).Some? && parseRank(item.displayRank).Some?)
      && (parseScore(item.scoreText).None? ==> r == Failure(BadScore(item.scoreText)))
      && (parseScore(item.scoreText).Some? && parseRank(item.displayRank).None? ==>
            r == Failure(BadRank(item.displayRank)))
      && (r.Success? ==>
            && r.value.name == item.name && r.value.city == item.city && r.value.state == item.state
            && r.value.url == item.url && r.value.id == item.id && r.value.ficeCode == item.ficeCode
            && parseScore(item.scoreText) == Some(r.value.score)
            && parseRank(item.displayRank) == Some(r.value.rank))
  {
  }

  /**
   * The inner `for` loop as a fold: add the items in order to `acc`, or stop
   * at the first conversion error.
   */
  function CollectFrom(acc: Colleges, items: seq<Item>,
                       parseScore: string -> Option<real>, parseRank: string -> Option<int>)
    : Result<Colleges, CollectError>
    decreases |items|
  {
    if items == [] then Success(acc)
    else
      match Normalize(items[0], parseScore, parseRank)
      case Failure(e) => Failure(e)
      case Success(c) => CollectFrom(Add(acc, items[0].displayRank, c), items[1..], parseScore, parseRank)
  }

  /** The rank-grouped mapping built from the items in arrival order, or the first conversion error. */
  function Collect(items: seq<Item>, parseScore: string -> Option<real>, parseRank: string -> Option<int>)
    : Result<Colleges, CollectError>
  {
    CollectFrom(Empty(), items, parseScore, parseRank)
  }

  /** The number of pages before the first empty one (all of them when none is empty). */
  function LiveCount(pages: seq<Page>): (n: nat)
    ensures n <= |pages|
    ensures forall i :: 0 <= i < n ==> pages[i] != []
    ensures n < |pages| ==> pages[n] == []
    decreases |pages|
  {
    if pages == [] || pages[0] == [] then 0 else 1 + LiveCount(pages[1..])
  }

  /** The items of the pages before the first empty one, in arrival order. */
  function LiveItems(pages: seq<Page>): seq<Item>
  {
    Concat(pages[..LiveCount(pages)])
  }

  /** The number of items on the first `p` pages. */
  function Start(pages: seq<Page>, p: nat): nat
    requires p <= |pages|
  {
    if p == 0 then 0 else Start(pages, p - 1) + |pages[p - 1]|
  }

  /**
   * The collector loop. `fetched` counts the calls to `get_page`: on success the
   * last one is the empty page that ends the walk.
   */
  method GetData(pages: seq<Page>, parseScore: string -> Option<real>, parseRank: string -> Option<int>)
    returns (r: Result<Colleges, CollectError>, fetched: nat)
    ensures r == Collect(LiveItems(pages), parseScore, parseRank)
    ensures r.Success? ==> fetched == LiveCount(pages) + 1
    ensures r.Failure? ==> 1 <= fetched <= LiveCount(pages)
    ensures r.Failure? ==>
      && Collect(Concat(pages[..fetched - 1]), parseScore, parseRank).Success?
      && Collect(Concat(pages[..fetched]), parseScore, parseRank) == r
  {
    ghost var live := LiveItems(pages);
    ghost var done: seq<Item> := [];
    var colleges := Empty();
    var page := 1;
    var items := Fetch(pages, page);
    while |items| != 0
      invariant 1 <= page <= |pages| + 1
      invariant items == Fetch(pages, page)
      invariant forall i :: 0 <= i < page - 1 ==> pages[i] != []
      invariant Start(pages, page - 1) <= |live|
      invariant done == Concat(pages[..page - 1])
      invariant Collect(done, parseScore, parseRank) == Success(colleges)
      invariant Collect(live, parseScore, parseRank) == CollectFrom(colleges, live[Start(pages, page - 1)..], parseScore, parseRank)
      decreases |pages| + 1 - page
    {
      NextPage(pages, page, colleges, parseScore, parseRank);
      var added := AddPage(colleges, items, parseScore, parseRank);
      PrefixStep(pages, page, colleges, parseScore, parseRank);
      if added.Failure? {
        return Failure(added.error), page;
      }
      colleges := added.value;
      done := Concat(pages[..page]);
      page := page + 1;
      items := Fetch(pages, page);
    }
    LiveEnd(pages, page);
    r := Success(colleges);
    fetched := page;
  }

  /**
   * Processing the live items from the start of a non-empty page on is
   * processing that page, then, unless it raised, the live items after it.
   */
  lemma NextPage(pages: seq<Page>, page: nat, colleges: Colleges,
                 parseScore: string -> Option<real>, parseRank: string -> Option<int>)
    requires 1 <= page <= |pages| && pages[page - 1] != []
    requires forall i :: 0 <= i < page - 1 ==> pages[i] != []
    ensures page <= LiveCount(pages) && Start(pages, page) <= |LiveItems(pages)|
    ensures CollectFrom(colleges, LiveItems(pages)[Start(pages, page - 1)..], parseScore, parseRank) ==
      match CollectFrom(colleges, pages[page - 1], parseScore, parseRank)
      case Failure(e) => Failure(e)
      case Success(t) => CollectFrom(t, LiveItems(pages)[Start(pages, page)..], parseScore, parseRank)
  {
    var live := LiveItems(pages);
    LiveSlice(pages, page);
    assert live[Start(pages, page - 1)..] == pages[page - 1] + live[Start(pages, page)..];
    CollectFromAppend(colleges, pages[page - 1], live[Start(pages, page)..], parseScore, parseRank);
  }

  /** When the pages before `page` collect to `colleges`, the pages up to `page` collect to `page` added to it. */
  lemma PrefixStep(pages: seq<Page>, page: nat, colleges: Colleges,
                   parseScore: string -> Option<real>, parseRank: string -> Option<int>)
    requires 1 <= page <= |pages|
    requires Collect(Concat(pages[..page - 1]), parseScore, parseRank) == Success(colleges)
    ensures Collect(Concat(pages[..page]), parseScore, parseRank) == CollectFrom(colleges, pages[page - 1], parseScore, parseRank)
  {
    ConcatNextPage(pages, page);
    CollectFromAppend(Empty(), Concat(pages[..page - 1]), pages[page - 1], parseScore, parseRank);
  }

  /**
   * The inner `for` loop over the items of one page: for each item, create its
   * rank's group when the rank is new, then append its record to the group.
   */
  method AddPage(colleges: Colleges, items: Page,
                 parseScore: string -> Option<real>, parseRank: string -> Option<int>)
    returns (r: Result<Colleges, CollectError>)
    ensures r == CollectFrom(colleges, items, parseScore, parseRank)
  {
    ghost var acc := colleges;
    var keys := colleges.keys;
    var groups := colleges.groups;
    var j := 0;
    while j < |items|
      invariant 0 <= j <= |items|
      invariant acc == Table(keys, groups)
      invariant CollectFrom(colleges, items, parseScore, parseRank) == CollectFrom(acc, items[j..], parseScore, parseRank)
    {
      var college := items[j];
      var rank := college.displayRank;
      assert items[j..][0] == college && items[j..][1..] == items[j + 1..];
      if rank !in groups {
        keys := keys + [rank];
        groups := groups[rank := []];
      }
      var record := Normalize(college, parseScore, parseRank);
      if record.Failure? {
        return Failure(record.error);
      }
      groups := groups[rank := groups[rank] + [record.value]];
      InsertThenAppend(acc, rank, record.value, keys, groups);
      acc := Add(acc, rank, record.value);
      j := j + 1;
    }
    assert items[j..] == [];
    r := Success(Table(keys, groups));
  }

  /** Folding over two runs of items is folding over the first, then, unless it failed, over the second. */
  lemma {:induction false} CollectFromAppend(acc: Colleges, a: seq<Item>, b: seq<Item>,
                                             parseScore: string -> Option<real>, parseRank: string -> Option<int>)
    ensures CollectFrom(acc, a + b, parseScore, parseRank) ==
      match CollectFrom(acc, a, parseScore, parseRank)
      case Failure(e) => Failure(e)
      case Success(t) => CollectFrom(t, b, parseScore, parseRank)
    decreases |a|
  {
    if a == [] {
      assert a + b == b;
    } else {
      assert (a + b)[0] == a[0] && (a + b)[1..] == a[1..] + b;
      match Normalize(a[0], parseScore, parseRank)
      case Failure(_) =>
      case Success(c) => CollectFromAppend(Add(acc, a[0].displayRank, c), a[1..], b, parseScore, parseRank);
    }
  }

  /** The loop's `colleges[rank] = []` (for a new key) followed by the append is `Add`. */
  lemma InsertThenAppend(t: Colleges, key: string, c: College,
                         keys: seq<string>, groups: map<string, seq<College>>)
    requires keys == if key in t.groups then t.keys else t.keys + [key]
    requires groups == (if key in t.groups then t.groups else t.groups[key := []])
                       [key := (if key in t.groups then t.groups[key] else []) + [c]]
    ensures Add(t, key, c) == Table(keys, groups)
  {
    if key !in t.groups {
      assert [] + [c] == [c];
      assert t.groups[key := []][key := [] + [c]] == t.groups[key := [c]];
    }
  }

  /** Flattening the first `page` pages adds page `page` after the earlier ones. */
  lemma ConcatNextPage(pages: seq<Page>, page: nat)
    requires 1 <= page <= |pages|
    ensures Concat(pages[..page]) == Concat(pages[..page - 1]) + pages[page - 1]
  {
    assert pages[..page][..page - 1] == pages[..page - 1];
  }

  lemma {:induction false} StartIsLength(pages: seq<Page>, p: nat)
    requires p <= |pages|
    ensures Start(pages, p) == |Concat(pages[..p])|
  {
    if p > 0 {
      StartIsLength(pages, p - 1);
      ConcatNextPage(pages, p);
    }
  }

  /** A non-empty page after non-empty pages is live, and its items sit at `Start` in the live items. */
  lemma LiveSlice(pages: seq<Page>, page: nat)
    requires 1 <= page <= |pages| && pages[page - 1] != []
    requires forall i :: 0 <= i < page - 1 ==> pages[i] != []
    ensures page <= LiveCount(pages)
    ensures Start(pages, page) <= |LiveItems(pages)|
    ensures LiveItems(pages)[Start(pages, page - 1)..Start(pages, page)] == pages[page - 1]
  {
    var n := LiveCount(pages);
    LiveAtLeast(pages, page);
    assert pages[..n] == pages[..page] + pages[page..n];
    ConcatAppend(pages[..page], pages[page..n]);
    ConcatNextPage(pages, page);
    StartIsLength(pages, page - 1);
  }

  /** Pages that are all non-empty are live. */
  lemma LiveAtLeast(pages: seq<Page>, m: nat)
    requires m <= |pages|
    requires forall i :: 0 <= i < m ==> pages[i] != []
    ensures m <= LiveCount(pages)
  {
  }

  /** The first empty page fetched is the one after the live prefix, and every live item has been seen. */
  lemma LiveEnd(pages: seq<Page>, page: nat)
    requires 1 <= page <= |pages| + 1 && Fetch(pages, page) == []
    requires forall i :: 0 <= i < page - 1 ==> pages[i] != []
    ensures LiveCount(pages) == page - 1
    ensures Start(pages, page - 1) == |LiveItems(pages)|
    ensures LiveItems(pages)[Start(pages, page - 1)..] == []
  {
    StartIsLength(pages, page - 1);
  }
}
