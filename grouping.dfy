/**
 * What the collector promises about the mapping it builds: when it fails,
 * which keys it creates and in what order, what each group holds, that each
 * record's rank agrees with its key, and how many records there are.
 */
module Grouping {
  import opened Wrappers
  import opened Records
  import opened Collector

  /** Every item's score and rank text convert. */
  ghost predicate AllConvert(items: seq<Item>, parseScore: string -> Option<real>, parseRank: string -> Option<int>)
  {
    forall i :: 0 <= i < |items| ==> Normalize(items[i], parseScore, parseRank).Success?
  }

  /** The records of items that all convert, in order. */
  function RecordsOf(items: seq<Item>, parseScore: string -> Option<real>, parseRank: string -> Option<int>)
    : seq<College>
    requires AllConvert(items, parseScore, parseRank)
    decreases |items|
  {
    if items == [] then []
    else [Normalize(items[0], parseScore, parseRank).value] + RecordsOf(items[1..], parseScore, parseRank)
  }

  /** The items whose display rank is `key`, in arrival order. */
  function WithRank(items: seq<Item>, key: string): seq<Item>
    decreases |items|
  {
    if items == [] then []
    else (if items[0].displayRank == key then [items[0]] else []) + WithRank(items[1..], key)
  }

  /** The position of the first item whose display rank is `key`; `|items|` when there is none. */
  function FirstIndex(items: seq<Item>, key: string): nat
    decreases |items|
  {
    if items == [] then 0
    else if items[0].displayRank == key then 0
    else 1 + FirstIndex(items[1..], key)
  }

  /** The display ranks not yet in `seen`, appended in the order they first turn up. */
  function FirstSeenFrom(seen: seq<string>, items: seq<Item>): seq<string>
    decreases |items|
  {
    if items == [] then seen
    else
      var rank := items[0].displayRank;
      FirstSeenFrom(if rank in seen then seen else seen + [rank], items[1..])
  }

  // ---------------------------------------------------------------------------
  // Failure

  /** The collection succeeds exactly when every item converts. */
  lemma {:induction false} CollectFromSucceeds(acc: Colleges, items: seq<Item>,
                                               parseScore: string -> Option<real>, parseRank: string -> Option<int>)
    ensures CollectFrom(acc, items, parseScore, parseRank).Success? <==> AllConvert(items, parseScore, parseRank)
    decreases |items|
  {
    if items != [] {
      ConvertsSplit(items, parseScore, parseRank);
      var r := Normalize(items[0], parseScore, parseRank);
      if r.Success? {
        CollectFromSucceeds(Add(acc, items[0].displayRank, r.value), items[1..], parseScore, parseRank);
      }
    }
  }

  /** A failed collection carries the error of an item all of whose predecessors convert. */
  lemma {:induction false} CollectFromFirstError(acc: Colleges, items: seq<Item>,
                                                 parseScore: string -> Option<real>, parseRank: string -> Option<int>)
    requires CollectFrom(acc, items, parseScore, parseRank).Failure?
    ensures exists i :: 0 <= i < |items| && AllConvert(items[..i], parseScore, parseRank)
              && Normalize(items[i], parseScore, parseRank) == Failure(CollectFrom(acc, items, parseScore, parseRank).error)
    decreases |items|
  {
    var e := CollectFrom(acc, items, parseScore, parseRank).error;
    var r := Normalize(items[0], parseScore, parseRank);
    if r.Failure? {
      assert AllConvert(items[..0], parseScore, parseRank);
    } else {
      var rest := items[1..];
      CollectFromFirstError(Add(acc, items[0].displayRank, r.value), rest, parseScore, parseRank);
      var i :| 0 <= i < |rest| && AllConvert(rest[..i], parseScore, parseRank)
            && Normalize(rest[i], parseScore, parseRank) == Failure(e);
      FirstErrorShift(items, i, e, parseScore, parseRank);
    }
  }

  /** A first failure in the tail, after a head that converts, is a first failure of the whole. */
  lemma FirstErrorShift(items: seq<Item>, i: nat, e: CollectError,
                        parseScore: string -> Option<real>, parseRank: string -> Option<int>)
    requires items != [] && Normalize(items[0], parseScore, parseRank).Success?
    requires i < |items| - 1 && AllConvert(items[1..][..i], parseScore, parseRank)
    requires Normalize(items[1..][i], parseScore, parseRank) == Failure(e)
    ensures exists k :: 0 <= k < |items| && AllConvert(items[..k], parseScore, parseRank)
              && Normalize(items[k], parseScore, parseRank) == Failure(e)
  {
    assert items[..i + 1] == [items[0]] + items[1..][..i];
    ConvertsCons(items[0], items[1..][..i], parseScore, parseRank);
    assert items[i + 1] == items[1..][i];
  }

  lemma ConvertsSplit(items: seq<Item>, parseScore: string -> Option<real>, parseRank: string -> Option<int>)
    requires items != []
    ensures AllConvert(items, parseScore, parseRank) <==>
      Normalize(items[0], parseScore, parseRank).Success? && AllConvert(items[1..], parseScore, parseRank)
  {
  }

  lemma ConvertsCons(x: Item, rest: seq<Item>, parseScore: string -> Option<real>, parseRank: string -> Option<int>)
    requires Normalize(x, parseScore, parseRank).Success? && AllConvert(rest, parseScore, parseRank)
    ensures AllConvert([x] + rest, parseScore, parseRank)
  {
  }

  /** `get_data` raises exactly when some item before the first empty page fails to convert; the first such failure is the one raised. */
  lemma CollectFails(items: seq<Item>, parseScore: string -> Option<real>, parseRank: string -> Option<int>)
    ensures Collect(items, parseScore, parseRank).Success? <==> AllConvert(items, parseScore, parseRank)
    ensures Collect(items, parseScore, parseRank).Failure? ==>
      exists i :: 0 <= i < |items| && AllConvert(items[..i], parseScore, parseRank)
              && Normalize(items[i], parseScore, parseRank) == Failure(Collect(items, parseScore, parseRank).error)
  {
    CollectFromSucceeds(Empty(), items, parseScore, parseRank);
    if Collect(items, parseScore, parseRank).Failure? {
      CollectFromFirstError(Empty(), items, parseScore, parseRank);
    }
  }

  // ---------------------------------------------------------------------------
  // Keys

  lemma {:induction false} FirstIndexSpec(items: seq<Item>, key: string)
    ensures FirstIndex(items, key) <= |items|
    ensures FirstIndex(items, key) < |items| ==> items[FirstIndex(items, key)].displayRank == key
    ensures forall j :: 0 <= j < FirstIndex(items, key) ==> items[j].displayRank != key
    decreases |items|
  {
    if items != [] && items[0].displayRank != key {
      FirstIndexSpec(items[1..], key);
      assert forall j :: 1 <= j < |items| ==> items[j] == items[1..][j - 1];
    }
  }

  /**
   * The keys after the items start with `seen`, and a key is among them exactly
   * when it was seen before or is the display rank of some item.
   */
  lemma {:induction false} FirstSeenFromGrows(seen: seq<string>, items: seq<Item>)
    ensures var r := FirstSeenFrom(seen, items);
      && |seen| <= |r| && r[..|seen|] == seen
      && (forall k :: k in r <==> k in seen || FirstIndex(items, k) < |items|)
    decreases |items|
  {
    if items != [] {
      var x := items[0].displayRank;
      var seen' := if x in seen then seen else seen + [x];
      var r := FirstSeenFrom(seen, items);
      FirstSeenFromGrows(seen', items[1..]);
      assert r[..|seen|] == r[..|seen'|][..|seen|];
    }
  }

  /** Keys are never added twice. */
  lemma {:induction false} FirstSeenFromDistinct(seen: seq<string>, items: seq<Item>)
    requires Distinct(seen)
    ensures Distinct(FirstSeenFrom(seen, items))
    decreases |items|
  {
    if items != [] {
      var x := items[0].displayRank;
      var seen' := if x in seen then seen else seen + [x];
      assert Distinct(seen');
      FirstSeenFromDistinct(seen', items[1..]);
    }
  }

  /** In a list without repeats, an element after position `n` does not occur before it. */
  lemma LaterNotEarlier(r: seq<string>, n: nat)
    requires Distinct(r) && n <= |r|
    ensures forall a :: n <= a < |r| ==> r[a] !in r[..n]
  {
  }

  /** The keys added after `seen` are ordered by the position of their first item. */
  lemma {:induction false} FirstSeenFromOrder(seen: seq<string>, items: seq<Item>)
    requires Distinct(seen)
    ensures var r := FirstSeenFrom(seen, items);
      forall a, b :: |seen| <= a < b < |r| ==> FirstIndex(items, r[a]) < FirstIndex(items, r[b])
    decreases |items|
  {
    if items != [] {
      var x := items[0].displayRank;
      var seen' := if x in seen then seen else seen + [x];
      var r := FirstSeenFrom(seen, items);
      assert Distinct(seen');
      FirstSeenFromOrder(seen', items[1..]);
      FirstSeenFromGrows(seen', items[1..]);
      FirstSeenFromDistinct(seen', items[1..]);
      LaterNotEarlier(r, |seen'|);
      assert x in r[..|seen'|];
      assert forall a :: |seen'| <= a < |r| ==> r[a] != x;
      assert forall k :: k != x ==> FirstIndex(items, k) == 1 + FirstIndex(items[1..], k);
    }
  }

  /** Building the mapping adds keys exactly as `FirstSeenFrom` lists them. */
  lemma {:induction false} CollectFromKeys(acc: Colleges, items: seq<Item>,
                                           parseScore: string -> Option<real>, parseRank: string -> Option<int>)
    requires CollectFrom(acc, items, parseScore, parseRank).Success?
    ensures CollectFrom(acc, items, parseScore, parseRank).value.keys == FirstSeenFrom(acc.keys, items)
    decreases |items|
  {
    if items != [] {
      var c := Normalize(items[0], parseScore, parseRank).value;
      CollectFromKeys(Add(acc, items[0].displayRank, c), items[1..], parseScore, parseRank);
    }
  }

  /**
   * The keys of the mapping are the display ranks that occur among the items,
   * each once, in the order in which they are first seen.
   */
  lemma CollectKeys(items: seq<Item>, parseScore: string -> Option<real>, parseRank: string -> Option<int>)
    requires Collect(items, parseScore, parseRank).Success?
    ensures var t := Collect(items, parseScore, parseRank).value;
      && (forall k :: k in t.keys <==> FirstIndex(items, k) < |items|)
      && (forall a, b :: 0 <= a < b < |t.keys| ==> FirstIndex(items, t.keys[a]) < FirstIndex(items, t.keys[b]))
  {
    CollectFromKeys(Empty(), items, parseScore, parseRank);
    FirstSeenFromGrows([], items);
    FirstSeenFromOrder([], items);
  }

  // ---------------------------------------------------------------------------
  // Groups

  lemma {:induction false} WithRankConverts(items: seq<Item>, key: string,
                                            parseScore: string -> Option<real>, parseRank: string -> Option<int>)
    requires AllConvert(items, parseScore, parseRank)
    ensures AllConvert(WithRank(items, key), parseScore, parseRank)
    ensures forall x :: x in WithRank(items, key) ==> x in items && x.displayRank == key
    decreases |items|
  {
    if items != [] {
      assert AllConvert(items[1..], parseScore, parseRank) by {
        assert forall i :: 0 <= i < |items[1..]| ==> items[1..][i] == items[i + 1];
      }
      WithRankConverts(items[1..], key, parseScore, parseRank);
      assert Normalize(items[0], parseScore, parseRank).Success?;
    }
  }

  /** Each group grows by the records of the items carrying its key, in arrival order. */
  lemma {:induction false} CollectFromGroups(acc: Colleges, items: seq<Item>,
                                             parseScore: string -> Option<real>, parseRank: string -> Option<int>)
    requires CollectFrom(acc, items, parseScore, parseRank).Success?
    ensures AllConvert(items, parseScore, parseRank)
    ensures forall key :: AllConvert(WithRank(items, key), parseScore, parseRank)
    ensures forall key ::
      GroupOf(CollectFrom(acc, items, parseScore, parseRank).value, key)
        == GroupOf(acc, key) + RecordsOf(WithRank(items, key), parseScore, parseRank)
    decreases |items|
  {
    CollectFromSucceeds(acc, items, parseScore, parseRank);
    forall key ensures AllConvert(WithRank(items, key), parseScore, parseRank) {
      WithRankConverts(items, key, parseScore, parseRank);
    }
    if items != [] {
      var x := items[0];
      var c := Normalize(x, parseScore, parseRank).value;
      var acc' := Add(acc, x.displayRank, c);
      CollectFromGroups(acc', items[1..], parseScore, parseRank);
      forall key
        ensures GroupOf(CollectFrom(acc, items, parseScore, parseRank).value, key)
             == GroupOf(acc, key) + RecordsOf(WithRank(items, key), parseScore, parseRank)
      {
        var rest := RecordsOf(WithRank(items[1..], key), parseScore, parseRank);
        if x.displayRank == key {
          assert WithRank(items, key) == [x] + WithRank(items[1..], key);
          assert ([x] + WithRank(items[1..], key))[1..] == WithRank(items[1..], key);
        } else {
          assert WithRank(items, key) == WithRank(items[1..], key);
        }
        AddGroups(acc, x.displayRank, c, key);
      }
    }
  }

  /** Every record of a group of `RecordsOf(WithRank(...))` has the rank its key converts to. */
  lemma {:induction false} RecordsRank(items: seq<Item>, key: string,
                                       parseScore: string -> Option<real>, parseRank: string -> Option<int>)
    requires AllConvert(items, parseScore, parseRank)
    requires forall x :: x in items ==> x.displayRank == key
    ensures forall c :: c in RecordsOf(items, parseScore, parseRank) ==> parseRank(key) == Some(c.rank)
    decreases |items|
  {
    if items != [] {
      assert AllConvert(items[1..], parseScore, parseRank) by {
        assert forall i :: 0 <= i < |items[1..]| ==> items[1..][i] == items[i + 1];
      }
      RecordsRank(items[1..], key, parseScore, parseRank);
      assert Normalize(items[0], parseScore, parseRank).Success?;
    }
  }

  /**
   * The group under each key holds the records of exactly the items with that
   * display rank, in arrival order; so no group is empty, and every record's
   * `rank` field is the integer its key converts to.
   */
  lemma CollectGroups(items: seq<Item>, parseScore: string -> Option<real>, parseRank: string -> Option<int>)
    requires Collect(items, parseScore, parseRank).Success?
    ensures forall key :: AllConvert(WithRank(items, key), parseScore, parseRank)
    ensures var t := Collect(items, parseScore, parseRank).value;
      && (forall key :: key in t.groups ==> t.groups[key] == RecordsOf(WithRank(items, key), parseScore, parseRank))
      && (forall key :: key in t.groups ==> t.groups[key] != [])
      && (forall key, c :: key in t.groups && c in t.groups[key] ==> parseRank(key) == Some(c.rank))
  {
    var t := Collect(items, parseScore, parseRank).value;
    CollectFromGroups(Empty(), items, parseScore, parseRank);
    CollectKeys(items, parseScore, parseRank);
    forall key | key in t.groups
      ensures t.groups[key] == RecordsOf(WithRank(items, key), parseScore, parseRank)
      ensures t.groups[key] != []
      ensures forall c :: c in t.groups[key] ==> parseRank(key) == Some(c.rank)
    {
      assert GroupOf(t, key) == [] + RecordsOf(WithRank(items, key), parseScore, parseRank);
      FirstIndexSpec(items, key);
      var i := FirstIndex(items, key);
      assert i < |items|;
      WithRankNonEmpty(items, key, i);
      WithRankConverts(items, key, parseScore, parseRank);
      RecordsRank(WithRank(items, key), key, parseScore, parseRank);
    }
  }

  lemma {:induction false} WithRankNonEmpty(items: seq<Item>, key: string, i: nat)
    requires i < |items| && items[i].displayRank == key
    ensures WithRank(items, key) != []
    decreases |items|
  {
    if items[0].displayRank != key {
      assert items[1..][i - 1] == items[i];
      WithRankNonEmpty(items[1..], key, i - 1);
    }
  }

  // ---------------------------------------------------------------------------
  // Count

  lemma {:induction false} CollectFromCount(acc: Colleges, items: seq<Item>,
                                            parseScore: string -> Option<real>, parseRank: string -> Option<int>)
    requires CollectFrom(acc, items, parseScore, parseRank).Success?
    ensures |Flatten(CollectFrom(acc, items, parseScore, parseRank).value)| == |Flatten(acc)| + |items|
    decreases |items|
  {
    if items != [] {
      var c := Normalize(items[0], parseScore, parseRank).value;
      AddCount(acc, items[0].displayRank, c);
      CollectFromCount(Add(acc, items[0].displayRank, c), items[1..], parseScore, parseRank);
    }
  }

  /** The mapping holds one record per item. */
  lemma CollectCount(items: seq<Item>, parseScore: string -> Option<real>, parseRank: string -> Option<int>)
    requires Collect(items, parseScore, parseRank).Success?
    ensures |Flatten(Collect(items, parseScore, parseRank).value)| == |items|
  {
    CollectFromCount(Empty(), items, parseScore, parseRank);
  }

  /**
   * The number of records `get_data` returns is the number of items on the
   * pages before the first empty page.
   */
  lemma {:induction false} GetDataCount(pages: seq<Page>, parseScore: string -> Option<real>, parseRank: string -> Option<int>)
    requires Collect(LiveItems(pages), parseScore, parseRank).Success?
    ensures |Flatten(Collect(LiveItems(pages), parseScore, parseRank).value)| == Start(pages, LiveCount(pages))
  {
    CollectCount(LiveItems(pages), parseScore, parseRank);
    StartIsLength(pages, LiveCount(pages));
  }
}
