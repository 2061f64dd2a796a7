/**
 * The data the collector builds: one flat record per program listing, and the
 * rank-grouped mapping from display-rank text to the records that share it.
 */
module Records {
  import opened Seqs

  /** A normalised program listing: the dictionary `get_data` appends for each item. */
  datatype College = College(
    name: string,
    city: string,
    state: string,
    url: string,
    score: real,     // the parsed academic-reputation score
    id: string,
    ficeCode: string,
    rank: int        // the integer value of the display rank
  )

  /** No text occurs twice. */
  predicate Distinct(s: seq<string>)
  {
    forall i, j :: 0 <= i < j < |s| ==> s[i] != s[j]
  }

  /**
   * A Python dictionary keyed by display-rank text: `keys` lists the keys in
   * insertion order, `groups` gives each key's list of records.
   */
  datatype Table = Table(keys: seq<string>, groups: map<string, seq<College>>)
  {
    /** Keys are listed once each, and the listed keys are exactly the dictionary's keys. */
    ghost predicate Valid()
    {
      && Distinct(keys)
      && (forall k :: k in groups <==> k in keys)
    }
  }

  /** The rank-grouped mapping, always a well-formed ordered dictionary. */
  type Colleges = t: Table | t.Valid() witness Table([], map[])

  /** `colleges.values()`: the groups in key insertion order. */
  function Values(t: Colleges): seq<seq<College>>
  {
    seq(|t.keys|, i requires 0 <= i < |t.keys| => t.groups[t.keys[i]])
  }

  /** Every record, in the order the search functions' nested loops visit them. */
  function Flatten(t: Colleges): seq<College>
  {
    Concat(Values(t))
  }

  /** The empty dictionary `{}` that `get_data` starts from. */
  function Empty(): (t: Colleges)
    ensures Flatten(t) == []
  {
    Table([], map[])
  }

  /** Create the key's group when the key is new, then append the record to the key's group. */
  function Add(t: Colleges, key: string, c: College): Colleges
  {
    if key in t.groups then Table(t.keys, t.groups[key := t.groups[key] + [c]])
    else Table(t.keys + [key], t.groups[key := [c]])
  }

  /** The group stored under `key`, or nothing when the key is absent. */
  function GroupOf(t: Colleges, key: string): seq<College>
  {
    if key in t.groups then t.groups[key] else []
  }

  /**
   * Adding a record lists its key last when the key is new and leaves the key
   * order alone otherwise; the record lands at the end of its own key's group,
   * and every other group is unchanged.
   */
  lemma AddGroups(t: Colleges, key: string, c: College, other: string)
    ensures Add(t, key, c).keys == if key in t.keys then t.keys else t.keys + [key]
    ensures GroupOf(Add(t, key, c), other) == GroupOf(t, other) + (if other == key then [c] else [])
  {
  }

  /** Adding a record makes the flattened mapping exactly one record longer. */
  lemma AddCount(t: Colleges, key: string, c: College)
    ensures |Flatten(Add(t, key, c))| == |Flatten(t)| + 1
  {
    var vs := Values(t);
    var r := Add(t, key, c);
    if key in t.groups {
      var m :| 0 <= m < |t.keys| && t.keys[m] == key;
      assert Values(r) == vs[m := vs[m] + [c]];
      ConcatExtendOne(vs, m, c);
    } else {
      assert Values(r) == vs + [[c]];
      ConcatAppend(vs, [[c]]);
      assert Concat([[c]]) == Concat([[c]][..0]) + [c];
    }
  }
}
