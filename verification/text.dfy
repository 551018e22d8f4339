/**
 * String helpers that `src/rag.py` gets from Python's `str` type:
 * `sep.join(parts)`, `s.endswith(suffix)` and `s.split('/')[-1]`.
 */
module Text {

  /** Python's `sep.join(parts)`. */
  function Join(parts: seq<string>, sep: string): (joined: string)
    decreases |parts|
  {
    if |parts| == 0 then ""
    else if |parts| == 1 then parts[0]
    else parts[0] + sep + Join(parts[1..], sep)
  }

  /** Where `parts[i]` starts inside `Join(parts, sep)`. */
  function Offset(parts: seq<string>, sep: string, i: nat): (start: nat)
    requires i <= |parts|
  {
    if i == 0 then 0 else Offset(parts, sep, i - 1) + |parts[i - 1]| + |sep|
  }

  lemma {:induction false} OffsetTail(parts: seq<string>, sep: string, i: nat)
    requires 1 <= i <= |parts|
    ensures Offset(parts, sep, i) == |parts[0]| + |sep| + Offset(parts[1..], sep, i - 1)
  {
    if i > 1 {
      OffsetTail(parts, sep, i - 1);
    }
  }

  lemma SliceOfAppend(a: string, b: string, x: nat, y: nat)
    requires x <= y <= |b|
    ensures (a + b)[|a| + x..|a| + y] == b[x..y]
  {
  }

  /** The join ends right after its last part. */
  lemma {:induction false} JoinLength(parts: seq<string>, sep: string)
    requires |parts| > 0
    ensures |Join(parts, sep)| == Offset(parts, sep, |parts| - 1) + |parts[|parts| - 1]|
    decreases |parts|
  {
    if |parts| > 1 {
      JoinLength(parts[1..], sep);
      OffsetTail(parts, sep, |parts| - 1);
    }
  }

  /** Every part appears verbatim at its offset in the join. */
  lemma {:induction false} JoinPartAt(parts: seq<string>, sep: string, i: nat)
    requires i < |parts|
    ensures Offset(parts, sep, i) + |parts[i]| <= |Join(parts, sep)|
    ensures Join(parts, sep)[Offset(parts, sep, i)..Offset(parts, sep, i) + |parts[i]|] == parts[i]
    decreases |parts|
  {
    if |parts| > 1 {
      var head := parts[0] + sep;
      assert Join(parts, sep) == head + Join(parts[1..], sep);
      if i > 0 {
        JoinPartAt(parts[1..], sep, i - 1);
        OffsetTail(parts, sep, i);
        var o := Offset(parts[1..], sep, i - 1);
        SliceOfAppend(head, Join(parts[1..], sep), o, o + |parts[i]|);
      }
    }
  }

  /** Consecutive parts are separated by exactly `sep`. */
  lemma {:induction false} JoinSepAt(parts: seq<string>, sep: string, i: nat)
    requires i + 1 < |parts|
    ensures Offset(parts, sep, i + 1) <= |Join(parts, sep)|
    ensures Join(parts, sep)[Offset(parts, sep, i) + |parts[i]|..Offset(parts, sep, i + 1)] == sep
    decreases |parts|
  {
    var head := parts[0] + sep;
    assert Join(parts, sep) == head + Join(parts[1..], sep);
    if i > 0 {
      JoinSepAt(parts[1..], sep, i - 1);
      OffsetTail(parts, sep, i);
      OffsetTail(parts, sep, i + 1);
      var o := Offset(parts[1..], sep, i - 1);
      SliceOfAppend(head, Join(parts[1..], sep), o + |parts[i]|, Offset(parts[1..], sep, i));
    } else {
      JoinPartAt(parts[1..], sep, 0);
    }
  }

  /** Python's `s.endswith(suffix)`. */
  predicate EndsWith(s: string, suffix: string)
  {
    |suffix| <= |s| && s[|s| - |suffix|..] == suffix
  }

  /** Python's `key.split('/')[-1]`: the text after the last `/`. */
  function LastSegment(key: string): (segment: string)
    decreases |key|
  {
    if key == [] then []
    else if key[|key| - 1] == '/' then []
    else LastSegment(key[..|key| - 1]) + [key[|key| - 1]]
  }

  /**
   * `LastSegment(key)` is the longest suffix of `key` without a `/`: it holds no
   * `/`, it ends the key, it is preceded by a `/` unless it is the whole key, and
   * a key without any `/` is its own last segment.
   */
  lemma {:induction false} LastSegmentIsMaximalSuffix(key: string)
    ensures '/' !in LastSegment(key)
    ensures |LastSegment(key)| <= |key| && key[|key| - |LastSegment(key)|..] == LastSegment(key)
    ensures |LastSegment(key)| < |key| ==> key[|key| - |LastSegment(key)| - 1] == '/'
    ensures '/' !in key ==> LastSegment(key) == key
    decreases |key|
  {
    if key != [] && key[|key| - 1] != '/' {
      var init := key[..|key| - 1];
      LastSegmentIsMaximalSuffix(init);
      var t := LastSegment(init);
      assert key == init + [key[|key| - 1]];
      assert key[|key| - |t| - 1..] == init[|init| - |t|..] + [key[|key| - 1]];
      if '/' !in key {
        assert '/' !in init;
      }
    }
  }

  lemma LastSegmentHasNoSlash(key: string)
    ensures '/' !in LastSegment(key)
  {
    LastSegmentIsMaximalSuffix(key);
  }

  lemma LastSegmentEndsKey(key: string)
    ensures EndsWith(key, LastSegment(key))
  {
    LastSegmentIsMaximalSuffix(key);
  }
}
