/**
  Length-prefixed lists over byte strings. A reader takes the bytes that are left and returns a value with
  the bytes after it; the running offset of the source is where those bytes start. A slice past the end is
  a panic in the source and the error `Panic` here.
*/
module Codecs {

  import opened ByteOrder
  import opened Common

  datatype CodecError = OutOfBounds | ChecksumMismatch | Panic

  type Parsed<T> = Result<(T, seq<Byte>), CodecError>

  type Parser<!T> = seq<Byte> -> Parsed<T>

  type Writer<!T> = T -> seq<Byte>

  /** Reading what was written gives the value back, whatever follows. */
  ghost predicate Inverts<T(!new)>(w: Writer<T>, p: Parser<T>, x: T) {
    forall post :: p(w(x) + post) == Ok((x, post))
  }

  /** Whatever is read, its written form is what was there. */
  ghost predicate Exact<T(!new)>(w: Writer<T>, p: Parser<T>) {
    forall s :: Reproduces(w, p, s)
  }

  predicate Reproduces<T>(w: Writer<T>, p: Parser<T>, s: seq<Byte>) {
    p(s).Ok? ==> s == w(p(s).value.0) + p(s).value.1
  }

  // ---------- fixed-width numbers ----------

  function ParseNumber(n: nat, s: seq<Byte>): Parsed<nat> {
    if |s| < n then Err(Panic) else Ok((LittleEndian(s[..n]), s[n..]))
  }

  lemma NumberRoundTrip(x: nat, n: nat, post: seq<Byte>)
    requires x < Power(n)
    ensures ParseNumber(n, Bytes(x, n) + post) == Ok((x, post))
  {
    BytesDenote(x, n);
    var s := Bytes(x, n) + post;
    assert s[..n] == Bytes(x, n) && s[n..] == post;
  }

  lemma NumberExact(n: nat, s: seq<Byte>)
    requires ParseNumber(n, s).Ok?
    ensures var (x, rest) := ParseNumber(n, s).value; x < Power(n) && s == Bytes(x, n) + rest
  {
    hide LittleEndian, Bytes, Power;
    NumberDenotes(s[..n]);
    assert s == s[..n] + s[n..];
  }

  /** A fixed number of bytes. */
  function ParseBytes(n: nat, s: seq<Byte>): Parsed<seq<Byte>> {
    if |s| < n then Err(Panic) else Ok((s[..n], s[n..]))
  }

  lemma BytesRoundTrip(x: seq<Byte>, post: seq<Byte>)
    ensures ParseBytes(|x|, x + post) == Ok((x, post))
  {
    assert (x + post)[..|x|] == x && (x + post)[|x|..] == post;
  }

  // ---------- lists ----------

  function WriteList<T>(w: Writer<T>, xs: seq<T>): seq<Byte> {
    if xs == [] then [] else w(xs[0]) + WriteList(w, xs[1..])
  }

  function ParseList<T>(n: nat, p: Parser<T>, s: seq<Byte>): Parsed<seq<T>> {
    if n == 0 then Ok(([], s))
    else
      match p(s)
      case Err(e) => Err(e)
      case Ok((x, rest)) => Prepend([x], ParseList(n - 1, p, rest))
  }

  function Prepend<T>(xs: seq<T>, r: Parsed<seq<T>>): Parsed<seq<T>> {
    match r
    case Err(e) => Err(e)
    case Ok((ys, rest)) => Ok((xs + ys, rest))
  }

  lemma {:induction false} ListRoundTrip<T(!new)>(w: Writer<T>, p: Parser<T>, xs: seq<T>, post: seq<Byte>)
    requires forall i :: 0 <= i < |xs| ==> Inverts(w, p, xs[i])
    ensures ParseList(|xs|, p, WriteList(w, xs) + post) == Ok((xs, post))
    decreases |xs|
  {
    if xs == [] {
      assert WriteList(w, xs) + post == post;
    } else {
      var rest := WriteList(w, xs[1..]) + post;
      assert WriteList(w, xs) + post == w(xs[0]) + rest;
      assert Inverts(w, p, xs[0]);
      ListRoundTrip(w, p, xs[1..], post);
      assert [xs[0]] + xs[1..] == xs;
    }
  }

  lemma {:induction false} ListExact<T(!new)>(w: Writer<T>, p: Parser<T>, n: nat, s: seq<Byte>)
    requires Exact(w, p) && ParseList(n, p, s).Ok?
    ensures var (xs, rest) := ParseList(n, p, s).value; |xs| == n && s == WriteList(w, xs) + rest
  {
    if n > 0 {
      assert Reproduces(w, p, s);
      var (x, rest) := p(s).value;
      ListExact(w, p, n - 1, rest);
      var (ys, last) := ParseList(n - 1, p, rest).value;
      assert ([x] + ys)[1..] == ys;
    }
  }

  /** Every element a list reader returns came from its element reader. */
  lemma {:induction false} ListElements<T(!new)>(n: nat, p: Parser<T>, s: seq<Byte>, good: T -> bool)
    requires ParseList(n, p, s).Ok?
    requires forall t :: p(t).Ok? ==> good(p(t).value.0)
    ensures forall x :: x in ParseList(n, p, s).value.0 ==> good(x)
  {
    if n > 0 {
      var (x, rest) := p(s).value;
      ListElements(n - 1, p, rest, good);
    }
  }

  /** The loop that appends each element's bytes to a growing buffer. */
  method AppendList<T>(buf: seq<Byte>, w: Writer<T>, xs: seq<T>) returns (out: seq<Byte>)
    ensures out == buf + WriteList(w, xs)
  {
    out := buf;
    var i := 0;
    assert xs[0..] == xs;
    while i < |xs|
      invariant 0 <= i <= |xs|
      invariant out + WriteList(w, xs[i..]) == buf + WriteList(w, xs)
    {
      assert xs[i..][1..] == xs[i + 1..];
      assert out + WriteList(w, xs[i..]) == (out + w(xs[i])) + WriteList(w, xs[i + 1..]);
      out := out + w(xs[i]);
      i := i + 1;
    }
    assert xs[i..] == [] && out + [] == out;
  }

  /** The loop that reads n elements and pushes them. */
  method ReadList<T>(n: nat, p: Parser<T>, s: seq<Byte>) returns (r: Parsed<seq<T>>)
    ensures r == ParseList(n, p, s)
  {
    var xs: seq<T> := [];
    var rest := s;
    var i := 0;
    PrependNothing(ParseList(n, p, s));
    while i < n
      invariant 0 <= i <= n
      invariant Prepend(xs, ParseList(n - i, p, rest)) == ParseList(n, p, s)
    {
      var one := p(rest);
      if one.Err? {
        return Err(one.error);
      }
      PrependTwice(xs, [one.value.0], ParseList(n - i - 1, p, one.value.1));
      xs := xs + [one.value.0];
      rest := one.value.1;
      i := i + 1;
    }
    assert xs + [] == xs;
    r := Ok((xs, rest));
  }

  lemma PrependNothing<T>(r: Parsed<seq<T>>)
    ensures Prepend([], r) == r
  {
    if r.Ok? {
      assert [] + r.value.0 == r.value.0;
    }
  }

  lemma PrependTwice<T>(xs: seq<T>, ys: seq<T>, r: Parsed<seq<T>>)
    ensures Prepend(xs, Prepend(ys, r)) == Prepend(xs + ys, r)
  {
    if r.Ok? {
      assert xs + (ys + r.value.0) == (xs + ys) + r.value.0;
    }
  }
}
