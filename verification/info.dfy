/** The info dictionaries shown to the right of the bar. A Python dict is modelled
    as the sequence of its items in iteration (insertion) order, keys pairwise
    distinct, each value already rendered as `str()` renders it. */
module Info {
  import opened Wrappers
  import opened Text

  type Entry = (string, string)

  /** The keys in iteration order: `list(d)`. */
  function Keys(d: seq<Entry>): (ks: seq<string>)
    ensures |ks| == |d|
    ensures forall i :: 0 <= i < |d| ==> ks[i] == d[i].0
  {
    if d == [] then [] else [d[0].0] + Keys(d[1..])
  }

  /** What every dict satisfies: no key occurs twice. */
  predicate UniqueKeys(d: seq<Entry>)
  {
    forall i, j :: 0 <= i < j < |d| ==> d[i].0 != d[j].0
  }

  /** `d.get(k)`. */
  function Lookup(d: seq<Entry>, k: string): (r: Option<string>)
    ensures r.None? <==> k !in Keys(d)
  {
    if d == [] then None
    else if d[0].0 == k then Some(d[0].1)
    else Lookup(d[1..], k)
  }

  /** `d[k] = v`: an existing key keeps its place and takes the new value; a new
      key goes at the end. */
  function Insert(d: seq<Entry>, k: string, v: string): (r: seq<Entry>)
    ensures Keys(r) == if k in Keys(d) then Keys(d) else Keys(d) + [k]
  {
    if d == [] then [(k, v)]
    else if d[0].0 == k then [(k, v)] + d[1..]
    else [d[0]] + Insert(d[1..], k, v)
  }

  /** After `d[k] = v`, `k` maps to `v` and every other key to what it did before. */
  lemma {:induction false} InsertLookup(d: seq<Entry>, k: string, v: string, k': string)
    ensures Lookup(Insert(d, k, v), k') == if k' == k then Some(v) else Lookup(d, k')
  {
    if d != [] && d[0].0 != k {
      InsertLookup(d[1..], k, v, k');
    }
  }

  /** `d[k] = v` keeps the keys distinct. */
  lemma {:induction false} InsertUnique(d: seq<Entry>, k: string, v: string)
    requires UniqueKeys(d)
    ensures UniqueKeys(Insert(d, k, v))
  {
    if d != [] && d[0].0 != k {
      InsertUnique(d[1..], k, v);
    }
  }

  /** `a | b`: a copy of `a` updated with the items of `b`, in order. */
  function Merge(a: seq<Entry>, b: seq<Entry>): seq<Entry>
    decreases |b|
  {
    if b == [] then a else Merge(Insert(a, b[0].0, b[0].1), b[1..])
  }

  /** The keys of `ks` that are not in `seen`, in their order. */
  function Fresh(ks: seq<string>, seen: seq<string>): seq<string>
  {
    if ks == [] then [] else (if ks[0] in seen then [] else [ks[0]]) + Fresh(ks[1..], seen)
  }

  lemma {:induction false} FreshIgnores(ks: seq<string>, seen: seq<string>, x: string)
    requires x !in ks
    ensures Fresh(ks, seen + [x]) == Fresh(ks, seen)
  {
    if ks != [] {
      FreshIgnores(ks[1..], seen, x);
    }
  }

  lemma TailKeysFresh(b: seq<Entry>)
    requires b != [] && UniqueKeys(b)
    ensures b[0].0 !in Keys(b[1..])
    ensures UniqueKeys(b[1..])
  {
    forall i | 0 <= i < |b| - 1
      ensures Keys(b[1..])[i] != b[0].0
    {
      assert b[1..][i] == b[i + 1];
    }
  }

  /** The merged dict is a dict. */
  lemma {:induction false} MergeUnique(a: seq<Entry>, b: seq<Entry>)
    requires UniqueKeys(a)
    ensures UniqueKeys(Merge(a, b))
    decreases |b|
  {
    if b != [] {
      InsertUnique(a, b[0].0, b[0].1);
      MergeUnique(Insert(a, b[0].0, b[0].1), b[1..]);
    }
  }

  /** Keyword arguments win: a key of `b` takes `b`'s value, any other key of `a`
      keeps its own. */
  lemma {:induction false} MergeLookup(a: seq<Entry>, b: seq<Entry>, k: string)
    requires UniqueKeys(b)
    ensures Lookup(Merge(a, b), k) == if k in Keys(b) then Lookup(b, k) else Lookup(a, k)
    decreases |b|
  {
    if b != [] {
      TailKeysFresh(b);
      InsertLookup(a, b[0].0, b[0].1, k);
      MergeLookup(Insert(a, b[0].0, b[0].1), b[1..], k);
    }
  }

  /** The keys of `a` come first, in their order; then the new keys of `b`. */
  lemma {:induction false} MergeKeys(a: seq<Entry>, b: seq<Entry>)
    requires UniqueKeys(b)
    ensures Keys(Merge(a, b)) == Keys(a) + Fresh(Keys(b), Keys(a))
    decreases |b|
  {
    if b != [] {
      var k := b[0].0;
      var a' := Insert(a, k, b[0].1);
      TailKeysFresh(b);
      MergeKeys(a', b[1..]);
      assert Keys(b) == [k] + Keys(b[1..]);
      FreshStep(Keys(a), k, Keys(b[1..]));
    }
  }

  /** One step of `MergeKeys`: inserting `k` into keys `ka` and continuing with
      the keys `tail`, none of which is `k`. */
  lemma FreshStep(ka: seq<string>, k: string, tail: seq<string>)
    requires k !in tail
    ensures (if k in ka then ka else ka + [k]) + Fresh(tail, if k in ka then ka else ka + [k])
         == ka + Fresh([k] + tail, ka)
  {
    assert ([k] + tail)[1..] == tail;
    if k !in ka {
      FreshIgnores(tail, ka, k);
    }
  }

  lemma {:induction false} InsertNew(d: seq<Entry>, k: string, v: string)
    requires forall i :: 0 <= i < |d| ==> d[i].0 != k
    ensures Insert(d, k, v) == d + [(k, v)]
  {
    if d != [] {
      assert d == [d[0]] + d[1..];
      InsertNew(d[1..], k, v);
    }
  }

  /** No key of `a` is a key of `b`. */
  predicate KeysDisjoint(a: seq<Entry>, b: seq<Entry>)
  {
    forall i, j :: 0 <= i < |a| && 0 <= j < |b| ==> a[i].0 != b[j].0
  }

  /** Merging in keys that are all new appends them unchanged. */
  lemma {:induction false} MergeDisjoint(a: seq<Entry>, b: seq<Entry>)
    requires UniqueKeys(b) && KeysDisjoint(a, b)
    ensures Merge(a, b) == a + b
    decreases |b|
  {
    if b != [] {
      var a' := a + [b[0]];
      var b' := b[1..];
      InsertNew(a, b[0].0, b[0].1);
      assert UniqueKeys(b') && KeysDisjoint(a', b') by {
        forall j | 0 <= j < |b'|
          ensures b'[j] == b[j + 1]
        {
        }
      }
      MergeDisjoint(a', b');
      ShiftHead(a, b);
    }
  }

  lemma ShiftHead(a: seq<Entry>, b: seq<Entry>)
    requires b != []
    ensures a + [b[0]] + b[1..] == a + b
  {
    assert [b[0]] + b[1..] == b;
  }

  /** An empty side changes nothing: `{} | b == b` and `a | {} == a`. */
  lemma MergeEmpty(d: seq<Entry>)
    requires UniqueKeys(d)
    ensures Merge([], d) == d
    ensures Merge(d, []) == d
  {
    MergeDisjoint([], d);
    assert [] + d == d;
  }

  /** No key and no value of `d` contains `c`. */
  predicate Avoids(d: seq<Entry>, c: char)
  {
    forall i :: 0 <= i < |d| ==> c !in d[i].0 && c !in d[i].1
  }

  lemma {:induction false} InsertAvoids(d: seq<Entry>, k: string, v: string, c: char)
    requires Avoids(d, c) && c !in k && c !in v
    ensures Avoids(Insert(d, k, v), c)
  {
    if d != [] && d[0].0 != k {
      InsertAvoids(d[1..], k, v, c);
    }
  }

  /** Every item of `a | b` comes from `a` or from `b`, so a character that
      neither uses does not occur in it. */
  lemma {:induction false} MergeAvoids(a: seq<Entry>, b: seq<Entry>, c: char)
    requires Avoids(a, c) && Avoids(b, c)
    ensures Avoids(Merge(a, b), c)
    decreases |b|
  {
    if b != [] {
      InsertAvoids(a, b[0].0, b[0].1, c);
      MergeAvoids(Insert(a, b[0].0, b[0].1), b[1..], c);
    }
  }

  /** `f"{k}: {v}"`. */
  function FormatEntry(e: Entry): string
  {
    e.0 + ": " + e.1
  }

  function Formatted(d: seq<Entry>): (ps: seq<string>)
    ensures |ps| == |d|
    ensures forall i :: 0 <= i < |d| ==> ps[i] == FormatEntry(d[i])
  {
    seq(|d|, i requires 0 <= i < |d| => FormatEntry(d[i]))
  }

  /** `create_bar_info`: the items as `k: v`, in order, joined by `", "`. */
  function CreateBarInfo(d: seq<Entry>): (r: string)
    ensures r == [] <==> d == []
    ensures |d| == 1 ==> r == FormatEntry(d[0])
  {
    var r := Join(", ", Formatted(d));
    assert d != [] ==> |Formatted(d)[0]| >= 2;
    r
  }

  /** One more item adds `", k: v"` at the end. */
  lemma CreateBarInfoSnoc(d: seq<Entry>, e: Entry)
    requires d != []
    ensures CreateBarInfo(d + [e]) == CreateBarInfo(d) + ", " + FormatEntry(e)
  {
    assert Formatted(d + [e]) == Formatted(d) + [FormatEntry(e)];
    JoinSnoc(", ", Formatted(d), FormatEntry(e));
  }

  /** A character in no key, no value and not in the fixed separators `": "` and
      `", "` does not occur in the text. */
  lemma CreateBarInfoExcludes(d: seq<Entry>, c: char)
    requires c != ':' && c != ',' && c != ' '
    requires Avoids(d, c)
    ensures c !in CreateBarInfo(d)
  {
    JoinExcludes(", ", Formatted(d), c);
  }

  /** `create_bar_info({"test1": 123, "test2": 123}) == "test1: 123, test2: 123"`. */
  lemma CreateBarInfoExample()
    ensures CreateBarInfo([("test1", "123"), ("test2", "123")]) == "test1: 123, test2: 123"
  {
    CreateBarInfoSnoc([("test1", "123")], ("test2", "123"));
    assert [("test1", "123")] + [("test2", "123")] == [("test1", "123"), ("test2", "123")];
  }
}
