/** Shared vocabulary: optional and fallible results, Python dictionaries that
    keep insertion order, and the text operations the model leaves abstract. */
module Common {

  datatype Option<+T> = None | Some(value: T)

  datatype Result<+T, +E> = Ok(value: T) | Err(error: E)

  /** JSON scalars accepted in write values. */
  datatype Scalar = Str(text: string) | Int(number: int) | Num(amount: real) | Bool(truth: bool)

  /** A Python `dict[str, Scalar]` in insertion order. */
  type Dict = seq<(string, Scalar)>

  ghost predicate DistinctKeys(d: Dict) {
    forall i, j :: 0 <= i < j < |d| ==> d[i].0 != d[j].0
  }

  /** `d[key] = value`: a known key keeps its position, a new key goes last. */
  function Put(d: Dict, key: string, value: Scalar): Dict {
    if d == [] then [(key, value)]
    else if d[0].0 == key then [(key, value)] + d[1..]
    else [d[0]] + Put(d[1..], key, value)
  }

  lemma {:induction false} PutNew(d: Dict, key: string, value: Scalar)
    requires forall i :: 0 <= i < |d| ==> d[i].0 != key
    ensures Put(d, key, value) == d + [(key, value)]
  {
    if d != [] {
      PutNew(d[1..], key, value);
    }
  }

  lemma {:induction false} PutKeepsShape(d: Dict, key: string, value: Scalar)
    requires DistinctKeys(d)
    ensures DistinctKeys(Put(d, key, value))
    ensures forall e :: e in Put(d, key, value) ==> e == (key, value) || e in d
    ensures forall e :: e in Put(d, key, value) ==> e.0 == key || exists k :: 0 <= k < |d| && d[k].0 == e.0
  {
    if d == [] {
    } else if d[0].0 == key {
    } else {
      PutKeepsShape(d[1..], key, value);
      var rest := Put(d[1..], key, value);
      forall i, j | 0 <= i < j < |rest| + 1
        ensures ([d[0]] + rest)[i].0 != ([d[0]] + rest)[j].0
      {
        if i == 0 {
          assert rest[j - 1] in rest;
        }
      }
    }
  }

  /** The mapping a dictionary denotes, which is what canonical JSON with sorted keys keeps. */
  function Meaning(d: Dict): map<string, Scalar> {
    if d == [] then map[] else Meaning(d[..|d| - 1])[d[|d| - 1].0 := d[|d| - 1].1]
  }

  lemma {:induction false} MeaningIsEntry(d: Dict, key: string)
    requires key in Meaning(d)
    ensures (key, Meaning(d)[key]) in d
  {
    if d[|d| - 1].0 != key {
      MeaningIsEntry(d[..|d| - 1], key);
    }
  }

  /** A dictionary with distinct keys denotes exactly its entries. */
  lemma {:induction false} EntryIsMeaning(d: Dict, i: nat)
    requires DistinctKeys(d) && i < |d|
    ensures d[i].0 in Meaning(d) && Meaning(d)[d[i].0] == d[i].1
  {
    if i < |d| - 1 {
      EntryIsMeaning(d[..|d| - 1], i);
    }
  }

  lemma MeaningWithin(a: Dict, b: Dict, key: string)
    requires DistinctKeys(b) && multiset(a) == multiset(b) && key in Meaning(a)
    ensures key in Meaning(b) && Meaning(b)[key] == Meaning(a)[key]
  {
    hide Meaning, DistinctKeys;
    MeaningIsEntry(a, key);
    var e := (key, Meaning(a)[key]);
    assert e in multiset(a) && e in multiset(b);
    var i :| 0 <= i < |b| && b[i] == e;
    EntryIsMeaning(b, i);
  }

  lemma SameEntriesSameMeaning(a: Dict, b: Dict)
    requires DistinctKeys(a) && DistinctKeys(b) && multiset(a) == multiset(b)
    ensures Meaning(a) == Meaning(b)
  {
    hide Meaning, DistinctKeys;
    forall key | key in Meaning(a)
      ensures key in Meaning(b) && Meaning(b)[key] == Meaning(a)[key]
    {
      MeaningWithin(a, b, key);
    }
    forall key | key in Meaning(b)
      ensures key in Meaning(a)
    {
      MeaningWithin(b, a, key);
    }
  }

  /** Python's `str.casefold` and the emptiness of `str.strip`, left abstract. */
  datatype Text = Text(fold: string -> string, blank: string -> bool)

  predicate OccursAt(s: string, sub: string, i: int) {
    0 <= i <= |s| - |sub| && s[i..i + |sub|] == sub
  }

  /** `sub in s` for strings. */
  predicate Contains(s: string, sub: string) {
    exists i :: 0 <= i <= |s| && OccursAt(s, sub, i)
  }
}
