/** Small vocabulary shared by the other modules: options and facts about sequences. */
module Prelude {

  datatype Option<+T> = None | Some(value: T)

  ghost predicate NoDup<T>(s: seq<T>) {
    forall i, j :: 0 <= i < j < |s| ==> s[i] != s[j]
  }

  ghost function SetOf<T>(s: seq<T>): set<T> {
    set x | x in s
  }

  type Bytes = seq<bv8>

  const NEWLINE: bv8 := 10

  /** The elements in the opposite order. */
  function Reversed<T>(s: seq<T>): (r: seq<T>)
    ensures |r| == |s| && forall i :: 0 <= i < |s| ==> r[i] == s[|s| - 1 - i]
  {
    seq(|s|, i requires 0 <= i < |s| => s[|s| - 1 - i])
  }

  lemma Assoc<T>(a: seq<T>, b: seq<T>, c: seq<T>)
    ensures (a + b) + c == a + (b + c)
  {
  }

  lemma SetOfAppend<T>(s: seq<T>, x: T)
    ensures SetOf(s + [x]) == SetOf(s) + {x}
    ensures NoDup(s) && x !in s ==> NoDup(s + [x])
  {
  }

  lemma WithoutLast<T>(s: seq<T>)
    requires NoDup(s) && s != []
    ensures NoDup(s[..|s| - 1])
    ensures forall x :: x in s[..|s| - 1] <==> x in s && x != s[|s| - 1]
  {
    assert s == s[..|s| - 1] + [s[|s| - 1]];
  }

  lemma {:induction false} NoDupSize<T>(s: seq<T>)
    requires NoDup(s)
    ensures |SetOf(s)| == |s|
  {
    if s != [] {
      var front, last := s[..|s| - 1], s[|s| - 1];
      NoDupSize(front);
      assert s == front + [last];
      SetOfAppend(front, last);
      assert last !in SetOf(front);
    }
  }

  lemma SubsetSameSize<T>(a: set<T>, b: set<T>)
    requires a <= b
    ensures |a| <= |b| && |b - a| == |b| - |a|
    ensures |a| == |b| ==> a == b
  {
    assert b == a + (b - a);
  }

  /** A sequence without repetition holds every element exactly once. */
  lemma {:induction false} NoDupCounts<T>(s: seq<T>)
    requires NoDup(s)
    ensures forall x :: multiset(s)[x] <= 1
  {
    if s != [] {
      var front, last := s[..|s| - 1], s[|s| - 1];
      NoDupCounts(front);
      assert s == front + [last];
      assert last !in multiset(front);
    }
  }

  /** Rearranging a sequence without repetition keeps it without repetition. */
  lemma Rearranged<T>(s: seq<T>, t: seq<T>)
    requires multiset(s) == multiset(t)
    ensures SetOf(s) == SetOf(t) && |s| == |t|
    ensures NoDup(s) ==> NoDup(t)
  {
    assert |multiset(s)| == |multiset(t)|;
    forall x ensures x in s <==> x in t {
      assert x in s <==> x in multiset(s);
      assert x in t <==> x in multiset(t);
    }
    if NoDup(s) {
      NoDupCounts(s);
      forall i, j | 0 <= i < j < |t| ensures t[i] != t[j] {
        assert t == t[..j] + [t[j]] + t[j + 1..];
        assert multiset(t) == multiset(t[..j]) + multiset{t[j]} + multiset(t[j + 1..]);
        assert multiset(s)[t[j]] <= 1;
        assert t[j] !in multiset(t[..j]);
        assert t[i] in t[..j];
      }
    }
  }
}
