/**
  Helpers of rlbench/utils.py: the in-place dictionary merge `copy_to_dict`
  and the step of `join_paths` that drops empty path segments.
 */
module Utils {
  import opened Wrappers

  predicate NoDuplicates<T(==)>(s: seq<T>)
  {
    forall i, j | 0 <= i < j < |s| :: s[i] != s[j]
  }

  /** The dictionary `toDict` becomes once every entry of `fromDict` has been written into it. */
  function Merged<K(==), V>(toDict: map<K, V>, fromDict: map<K, V>): map<K, V>
  {
    toDict + fromDict
  }

  /**
    `copy_to_dict(from_dict, to_dict)`: both arguments must be present (the
    source asserts it; `None` stands for the failed assertion); every key of
    `fromDict` is written into `toDict`, one key at a time, and the updated
    dictionary is returned.
   */
  method CopyToDict<K(==), V>(fromDict: Option<map<K, V>>, toDict: Option<map<K, V>>)
    returns (r: Option<map<K, V>>)
    ensures r.Some? <==> fromDict.Some? && toDict.Some?
    ensures r.Some? ==> r.value.Keys == toDict.value.Keys + fromDict.value.Keys
    ensures r.Some? ==> forall k | k in fromDict.value :: r.value[k] == fromDict.value[k]
    ensures r.Some? ==> forall k | k in toDict.value && k !in fromDict.value :: r.value[k] == toDict.value[k]
    ensures r.Some? ==> r.value == Merged(toDict.value, fromDict.value)
  {
    if fromDict.None? || toDict.None? {
      return None;
    }
    var source, target := fromDict.value, toDict.value;
    var pending := source.Keys;
    while pending != {}
      invariant pending <= source.Keys
      invariant target.Keys == toDict.value.Keys + (source.Keys - pending)
      invariant forall k | k in source && k !in pending :: target[k] == source[k]
      invariant forall k | k in toDict.value && (k !in source || k in pending) :: target[k] == toDict.value[k]
      decreases pending
    {
      var k :| k in pending;
      target := target[k := source[k]];
      pending := pending - {k};
    }
    return Some(target);
  }

  /** Merging the same dictionary a second time changes nothing. */
  lemma MergedIdempotent<K, V>(toDict: map<K, V>, fromDict: map<K, V>)
    ensures Merged(Merged(toDict, fromDict), fromDict) == Merged(toDict, fromDict)
  {
  }

  /** The filter at the start of `join_paths`: every "" segment is dropped. */
  function DropEmpty(paths: seq<string>): (r: seq<string>)
    ensures |r| <= |paths|
    ensures forall i | 0 <= i < |r| :: r[i] != ""
    ensures forall p :: p in r <==> p in paths && p != ""
  {
    if |paths| == 0 then []
    else (if paths[0] == "" then [] else [paths[0]]) + DropEmpty(paths[1..])
  }

  /** Filtering commutes with concatenation, so the kept segments stay in order. */
  lemma {:induction false} DropEmptyConcat(a: seq<string>, b: seq<string>)
    ensures DropEmpty(a + b) == DropEmpty(a) + DropEmpty(b)
  {
    if |a| == 0 {
      assert a + b == b;
    } else {
      assert (a + b)[0] == a[0];
      assert (a + b)[1..] == a[1..] + b;
      DropEmptyConcat(a[1..], b);
    }
  }

  /** Segments that are all non-empty pass through unchanged. */
  lemma {:induction false} DropEmptyKeepsNonEmpty(paths: seq<string>)
    requires forall i | 0 <= i < |paths| :: paths[i] != ""
    ensures DropEmpty(paths) == paths
  {
    if |paths| > 0 {
      DropEmptyKeepsNonEmpty(paths[1..]);
      assert [paths[0]] + paths[1..] == paths;
    }
  }
}
