/** Lists of objects, as std::vector::erase and std::find treat them, and lists put together and taken apart. */
module Sequences {

  predicate Distinct<T(==)>(s: seq<T>) { forall i, j :: 0 <= i < j < |s| ==> s[i] != s[j] }

  /** Removes the first occurrence, as std::find and erase do. */
  function Erase<T(==)>(s: seq<T>, c: T): (r: seq<T>)
    ensures |r| == |s| - if c in s then 1 else 0
  {
    if s == [] then [] else if s[0] == c then s[1..] else [s[0]] + Erase(s[1..], c)
  }

  lemma {:induction false} EraseAt<T>(s: seq<T>, i: nat, c: T)
    requires i < |s| && s[i] == c && c !in s[..i]
    ensures Erase(s, c) == s[..i] + s[i + 1..]
  {
    if i > 0 {
      assert s[0] == s[..i][0] && s[1..][..i - 1] == s[..i][1..];
      EraseAt(s[1..], i - 1, c);
    }
  }

  lemma {:induction false} EraseAbsent<T>(s: seq<T>, c: T)
    requires c !in s
    ensures Erase(s, c) == s
  {
    if s != [] {
      assert s == [s[0]] + s[1..];
      EraseAbsent(s[1..], c);
    }
  }

  /** Where a controller is, erasing it leaves the two sides. */
  lemma EraseSplit<T>(s: seq<T>, c: T) returns (i: nat)
    requires c in s && Distinct(s)
    ensures i < |s| && s[i] == c && Erase(s, c) == s[..i] + s[i + 1..]
  {
    i :| i < |s| && s[i] == c;
    EraseAt(s, i, c);
  }

  lemma EraseDistinct<T>(s: seq<T>, c: T)
    requires Distinct(s)
    ensures Distinct(Erase(s, c)) && c !in Erase(s, c)
  {
    if c in s {
      var i := EraseSplit(s, c);
    } else {
      EraseAbsent(s, c);
    }
  }

  lemma {:induction false} EraseCounts<T>(s: seq<T>, c: T)
    ensures multiset(Erase(s, c)) == multiset(s) - multiset{c}
  {
    if s != [] {
      assert s == [s[0]] + s[1..];
      if s[0] != c { EraseCounts(s[1..], c); }
    }
  }

  lemma Assoc<T>(a: seq<T>, b: seq<T>, c: seq<T>)
    ensures (a + b) + c == a + (b + c)
  {
  }

  lemma FourParts<T>(a: seq<T>, b: seq<T>, c: seq<T>, d: seq<T>)
    ensures [] + a + b + c + d == a + (b + (c + d))
  {
  }

  lemma Replaced<T>(a: seq<T>, x: T, b: seq<T>, y: T)
    ensures (a + ([x] + b))[|a| := y] == a + [y] + b
  {
  }

  lemma SpliceOut<T>(a: seq<T>, x: T, b: seq<T>)
    ensures var t := a + [x] + b; t[|a|] == x && t[..|a|] + t[|a| + 1..] == a + b
  {
    var t := a + [x] + b;
    assert t[..|a|] == a && t[|a| + 1..] == b;
  }

  lemma IndexOf<T>(a: seq<T>, x: T, b: seq<T>)
    ensures (a + [x] + b)[|a|] == x
    ensures forall j :: |a| < j < |a + [x] + b| ==> (a + [x] + b)[j] == b[j - |a| - 1]
  {
  }

  lemma Slices<T>(s: seq<T>, i: nat, e: nat)
    requires i <= e <= |s|
    ensures s == s[..i] + s[i..e] + s[e..]
    ensures forall j :: 0 <= j < e - i ==> s[i..e][j] == s[i + j]
    ensures forall j :: 0 <= j < |s| - e ==> s[e..][j] == s[e + j]
  {
  }

  lemma JoinDistinct<T>(a: seq<T>, b: seq<T>)
    requires Distinct(a) && Distinct(b) && forall i :: 0 <= i < |b| ==> b[i] !in a
    ensures Distinct(a + b)
  {
  }

  lemma {:induction false} EraseConcat<T>(a: seq<T>, b: seq<T>, x: T)
    requires x !in a
    ensures Erase(a + b, x) == a + Erase(b, x)
  {
    if a == [] {
      assert a + b == b;
    } else {
      assert (a + b)[0] == a[0] && (a + b)[1..] == a[1..] + b;
      EraseConcat(a[1..], b, x);
      Assoc([a[0]], a[1..], Erase(b, x));
      assert a == [a[0]] + a[1..];
    }
  }

  lemma {:induction false} EraseFromFront<T>(a: seq<T>, b: seq<T>, x: T)
    requires x in a
    ensures Erase(a + b, x) == Erase(a, x) + b
  {
    assert (a + b)[1..] == a[1..] + b;
    if a[0] != x {
      assert a == [a[0]] + a[1..];
      EraseFromFront(a[1..], b, x);
    }
  }

  lemma EraseHead<T>(c: T, rest: seq<T>)
    ensures Erase([c] + rest, c) == rest
  {
  }
}
