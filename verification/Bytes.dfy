/** Raw bytes, little-endian integers and C strings, laid out as memcpy and strcpy do. */
module Bytes {
  type Byte = b: int | 0 <= b < 0x100
  type U16 = x: int | 0 <= x < 0x1_0000
  type U32 = x: int | 0 <= x < 0x1_0000_0000
  type I32 = x: int | -0x8000_0000 <= x < 0x8000_0000

  datatype Option<+T> = None | Some(value: T) {
    predicate IsFailure() { None? }
    function PropagateFailure<U>(): Option<U> requires None? { None }
    function Extract(): T requires Some? { value }
  }

  // ---------------------------------------------------------------- integers

  function PutU16(x: U16): (s: seq<Byte>)
    ensures |s| == 2
  {
    [x % 0x100, x / 0x100]
  }

  function PutU32(x: U32): (s: seq<Byte>)
    ensures |s| == 4
  {
    PutU16(x % 0x1_0000) + PutU16(x / 0x1_0000)
  }

  function U16At(buf: seq<Byte>, at: nat): U16
    requires at + 2 <= |buf|
  {
    var low: int, high: int := buf[at], buf[at + 1];
    low + 0x100 * high
  }

  function U32At(buf: seq<Byte>, at: nat): U32
    requires at + 4 <= |buf|
  {
    var low: int, high: int := U16At(buf, at), U16At(buf, at + 2);
    low + 0x1_0000 * high
  }

  /** The two's complement image of an `int` that memcpy copies out. */
  function Unsigned(x: I32): U32 { if x < 0 then x + 0x1_0000_0000 else x }

  function Signed(x: U32): (r: I32)
    ensures Unsigned(r) == x
  {
    if x < 0x8000_0000 then x else x - 0x1_0000_0000
  }

  // ---------------------------------------------------------------- placement

  /** `bytes` lies in `buf` at offset `at`. */
  ghost predicate Has(buf: seq<Byte>, at: nat, bytes: seq<Byte>) {
    at + |bytes| <= |buf| && buf[at..at + |bytes|] == bytes
  }

  lemma HasSplit(buf: seq<Byte>, at: nat, a: seq<Byte>, b: seq<Byte>)
    requires Has(buf, at, a + b)
    ensures Has(buf, at, a) && Has(buf, at + |a|, b)
  {
    assert (a + b)[..|a|] == a && (a + b)[|a|..] == b;
    assert buf[at..at + |a|] == buf[at..at + |a + b|][..|a|];
    assert buf[at + |a|..at + |a| + |b|] == buf[at..at + |a + b|][|a|..];
  }

  lemma HasSelf(buf: seq<Byte>)
    ensures Has(buf, 0, buf)
  {
    assert buf[0..|buf|] == buf;
  }

  lemma HasFront(a: seq<Byte>, b: seq<Byte>)
    ensures Has(a + b, 0, a)
  {
  }

  lemma HasU16(buf: seq<Byte>, at: nat, x: U16)
    requires Has(buf, at, PutU16(x))
    ensures U16At(buf, at) == x
  {
    var s := buf[at..at + 2];
    assert s[0] == buf[at] && s[1] == buf[at + 1];
  }

  lemma HasU32(buf: seq<Byte>, at: nat, x: U32)
    requires Has(buf, at, PutU32(x))
    ensures U32At(buf, at) == x
  {
    HasSplit(buf, at, PutU16(x % 0x1_0000), PutU16(x / 0x1_0000));
    HasU16(buf, at, x % 0x1_0000);
    HasU16(buf, at + 2, x / 0x1_0000);
  }

  // ---------------------------------------------------------------- arrays of 32-bit words

  function EncWords(ws: seq<U32>): (s: seq<Byte>)
    ensures |s| == 4 * |ws|
  {
    if ws == [] then [] else EncWords(ws[..|ws| - 1]) + PutU32(ws[|ws| - 1])
  }

  lemma EncWordsAppend(ws: seq<U32>, x: U32)
    ensures EncWords(ws + [x]) == EncWords(ws) + PutU32(x)
  {
    assert (ws + [x])[..|ws|] == ws;
  }

  function WordsAt(buf: seq<Byte>, at: nat, n: nat): (ws: seq<U32>)
    requires at + 4 * n <= |buf|
    ensures |ws| == n
  {
    if n == 0 then [] else WordsAt(buf, at, n - 1) + [U32At(buf, at + 4 * (n - 1))]
  }

  function DecWords(buf: seq<Byte>, at: nat, n: nat): Option<(seq<U32>, nat)> {
    if at + 4 * n > |buf| then None else Some((WordsAt(buf, at, n), at + 4 * n))
  }

  lemma {:induction false} WordsRoundTrip(buf: seq<Byte>, at: nat, ws: seq<U32>)
    requires Has(buf, at, EncWords(ws))
    ensures DecWords(buf, at, |ws|) == Some((ws, at + 4 * |ws|))
  {
    if ws == [] {
    } else {
      var n := |ws| - 1;
      HasSplit(buf, at, EncWords(ws[..n]), PutU32(ws[n]));
      HasU32(buf, at + 4 * n, ws[n]);
      WordsRoundTrip(buf, at, ws[..n]);
      assert ws == ws[..n] + [ws[n]];
    }
  }

  // ---------------------------------------------------------------- C strings

  function Strlen(s: seq<Byte>): (n: nat)
    ensures n <= |s|
  {
    if s == [] || s[0] == 0 then 0 else 1 + Strlen(s[1..])
  }

  /** What `c_str()` shows of a std::string: everything before the first NUL. */
  function CString(s: seq<Byte>): (r: seq<Byte>)
    ensures |r| == Strlen(s)
  {
    s[..Strlen(s)]
  }

  lemma StrlenStops(s: seq<Byte>)
    ensures forall i :: 0 <= i < Strlen(s) ==> s[i] != 0
    ensures Strlen(s) < |s| ==> s[Strlen(s)] == 0
  {
  }

  lemma StrlenIs(s: seq<Byte>, n: nat)
    requires n <= |s| && (forall i :: 0 <= i < n ==> s[i] != 0)
    requires n < |s| ==> s[n] == 0
    ensures Strlen(s) == n
  {
    StrlenStops(s);
  }

  ghost predicate NulFree(s: seq<Byte>) { 0 !in s }

  lemma NulFreeIsOwnCString(s: seq<Byte>)
    ensures CString(s) == s <==> NulFree(s)
  {
    StrlenStops(s);
    if 0 !in s {
      assert forall i :: 0 <= i < |s| ==> s[i] in s;
      StrlenIs(s, |s|);
    }
  }

  function EncStr(s: seq<Byte>): seq<Byte> {
    PutU16((Strlen(s) + 1) % 0x1_0000) + CString(s) + [0]
  }

  predicate StrFits(s: seq<Byte>) { Strlen(s) + 1 < 0x1_0000 }

  /** The NUL-terminated string at `at`; None when no NUL follows inside the buffer. */
  function CStrAt(buf: seq<Byte>, at: nat): Option<seq<Byte>> {
    if at > |buf| || Strlen(buf[at..]) == |buf| - at then None
    else Some(CString(buf[at..]))
  }

  function DecStr(buf: seq<Byte>, at: nat): Option<(seq<Byte>, nat)> {
    if at + 2 > |buf| then None else
      var s :- CStrAt(buf, at + 2);
      Some((s, at + 2 + U16At(buf, at)))
  }

  lemma StrRoundTrip(buf: seq<Byte>, at: nat, s: seq<Byte>)
    requires StrFits(s) && Has(buf, at, EncStr(s))
    ensures DecStr(buf, at) == Some((CString(s), at + |EncStr(s)|))
  {
    var t := CString(s);
    StrlenStops(s);
    HasSplit(buf, at, PutU16(|t| + 1) + t, [0]);
    HasSplit(buf, at, PutU16(|t| + 1), t);
    HasU16(buf, at, |t| + 1);
    var rest := buf[at + 2..];
    assert rest[..|t|] == t;
    assert rest[|t|] == buf[at + 2 + |t|..at + 2 + |t| + 1][0];
    forall i | 0 <= i < |t| ensures rest[i] != 0 {
      assert rest[i] == rest[..|t|][i];
    }
    StrlenIs(rest, |t|);
  }

  // ---------------------------------------------------------------- counted lists

  function EncList<T>(enc: T -> seq<Byte>, xs: seq<T>): seq<Byte> {
    if xs == [] then [] else EncList(enc, xs[..|xs| - 1]) + enc(xs[|xs| - 1])
  }

  function DecList<T>(dec: (seq<Byte>, nat) -> Option<(T, nat)>, buf: seq<Byte>, at: nat, n: nat):
      (r: Option<(seq<T>, nat)>)
    ensures r.Some? ==> |r.value.0| == n
  {
    if n == 0 then Some(([], at)) else
      var (xs, p) :- DecList(dec, buf, at, n - 1);
      var (x, q) :- dec(buf, p);
      Some((xs + [x], q))
  }

  function Map<S, T>(f: S -> T, xs: seq<S>): (r: seq<T>)
    ensures |r| == |xs| && forall i :: 0 <= i < |xs| ==> r[i] == f(xs[i])
  {
    seq(|xs|, i requires 0 <= i < |xs| => f(xs[i]))
  }

  lemma EncListStep<T>(enc: T -> seq<Byte>, xs: seq<T>, i: nat)
    requires i < |xs|
    ensures EncList(enc, xs[..i + 1]) == EncList(enc, xs[..i]) + enc(xs[i])
  {
    assert xs[..i + 1][..i] == xs[..i];
  }

  lemma EncListEmpty<T>(enc: T -> seq<Byte>, xs: seq<T>)
    ensures EncList(enc, xs[..0]) == []
  {
  }

  lemma {:induction false} EncListBound<T>(enc: T -> seq<Byte>, xs: seq<T>, i: nat)
    requires i <= |xs|
    ensures |EncList(enc, xs[..i])| <= |EncList(enc, xs)|
    decreases |xs| - i
  {
    if i == |xs| {
      assert xs[..i] == xs;
    } else {
      EncListStep(enc, xs, i);
      EncListBound(enc, xs, i + 1);
    }
  }

  lemma {:induction false} EncListFront<T>(enc: T -> seq<Byte>, xs: seq<T>)
    requires xs != []
    ensures EncList(enc, xs) == enc(xs[0]) + EncList(enc, xs[1..])
  {
    var n := |xs| - 1;
    if n == 0 {
      assert xs[..0] == [] && xs[1..] == [];
    } else {
      EncListFront(enc, xs[..n]);
      assert xs[..n][1..] == xs[1..][..n - 1];
    }
  }

  lemma MapFront<S, T>(f: S -> T, xs: seq<S>)
    requires xs != []
    ensures Map(f, xs) == [f(xs[0])] + Map(f, xs[1..])
  {
  }

  /** A prefix of a list that decodes also decodes. */
  lemma {:induction false} DecListPrefix<T>(dec: (seq<Byte>, nat) -> Option<(T, nat)>, buf: seq<Byte>, at: nat,
                                            i: nat, n: nat)
    requires i <= n && DecList(dec, buf, at, n).Some?
    ensures DecList(dec, buf, at, i).Some?
    decreases n - i
  {
    if i < n {
      DecListPrefix(dec, buf, at, i + 1, n);
    }
  }

  /** `x` survives its own encoding, up to `view`, wherever it lies in `buf`. */
  ghost predicate RoundTrips<S, T>(enc: S -> seq<Byte>, dec: (seq<Byte>, nat) -> Option<(T, nat)>,
                                   view: S -> T, buf: seq<Byte>, x: S) {
    forall p: nat :: Has(buf, p, enc(x)) ==> dec(buf, p) == Some((view(x), p + |enc(x)|))
  }

  lemma {:induction false} ListRoundTrip<S, T>(enc: S -> seq<Byte>, dec: (seq<Byte>, nat) -> Option<(T, nat)>,
                                               view: S -> T, xs: seq<S>, buf: seq<Byte>, at: nat)
    requires forall i :: 0 <= i < |xs| ==> RoundTrips(enc, dec, view, buf, xs[i])
    requires Has(buf, at, EncList(enc, xs))
    ensures DecList(dec, buf, at, |xs|) == Some((Map(view, xs), at + |EncList(enc, xs)|))
  {
    hide Has;
    if xs == [] {
    } else {
      var n := |xs| - 1;
      HasSplit(buf, at, EncList(enc, xs[..n]), enc(xs[n]));
      ListRoundTrip(enc, dec, view, xs[..n], buf, at);
      assert Map(view, xs) == Map(view, xs[..n]) + [view(xs[n])];
    }
  }
}
