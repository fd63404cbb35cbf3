/** What every module shares. */
module Common {

  /** A value that may be absent: the sources' `None`, `null` and missing keys. */
  datatype Option<+T> = None | Some(value: T)

  /** The outcome of a call that may raise. */
  datatype Result<+T, +E> = Ok(value: T) | Err(error: E)
  {
    predicate IsFailure() { Err? }

    function PropagateFailure<U>(): Result<U, E>
      requires Err?
    {
      Err(error)
    }

    function Extract(): T
      requires Ok?
    {
      value
    }
  }

  ghost predicate AllDifferent<T>(s: seq<T>) {
    forall i, j :: 0 <= i < j < |s| ==> s[i] != s[j]
  }

  function SetOf<T(==)>(s: seq<T>): set<T> {
    set x | x in s
  }

  lemma {:induction false} DifferentAreCounted<T>(s: seq<T>)
    requires AllDifferent(s)
    ensures |SetOf(s)| == |s|
  {
    if s != [] {
      var before, last := s[..|s| - 1], s[|s| - 1];
      DifferentAreCounted(before);
      assert s == before + [last];
      assert SetOf(s) == SetOf(before) + {last};
    }
  }

  lemma SubsetIsSmaller<T>(a: set<T>, b: set<T>)
    requires a <= b
    ensures |a| <= |b|
  {
    if a != {} {
      var x :| x in a;
      SubsetIsSmaller(a - {x}, b - {x});
    }
  }

  function Flatten<T>(parts: seq<seq<T>>): seq<T> {
    if parts == [] then [] else parts[0] + Flatten(parts[1..])
  }

  lemma {:induction false} FlattenAppend<T>(a: seq<seq<T>>, b: seq<seq<T>>)
    ensures Flatten(a + b) == Flatten(a) + Flatten(b)
  {
    if a == [] {
      assert a + b == b;
    } else {
      assert (a + b)[1..] == a[1..] + b;
      FlattenAppend(a[1..], b);
    }
  }

  lemma {:induction false} InFlatten<T>(parts: seq<seq<T>>, x: T)
    ensures x in Flatten(parts) <==> exists i :: 0 <= i < |parts| && x in parts[i]
  {
    if parts != [] {
      InFlatten(parts[1..], x);
      if i :| 0 <= i < |parts| && x in parts[i] {
        if i > 0 {
          assert parts[1..][i - 1] == parts[i];
        }
      }
      if j :| 0 <= j < |parts[1..]| && x in parts[1..][j] {
        assert parts[1..][j] == parts[j + 1];
      }
    }
  }

  lemma FlattenKeeps<T>(parts: seq<seq<T>>, p: T -> bool)
    requires forall i, x :: 0 <= i < |parts| && x in parts[i] ==> p(x)
    ensures forall x :: x in Flatten(parts) ==> p(x)
  {
    forall x | x in Flatten(parts) ensures p(x) {
      InFlatten(parts, x);
    }
  }

  lemma {:induction false} FlattenNothing<T>(parts: seq<seq<T>>)
    requires forall i :: 0 <= i < |parts| ==> parts[i] == []
    ensures Flatten(parts) == []
  {
    if parts != [] {
      FlattenNothing(parts[1..]);
    }
  }
}
