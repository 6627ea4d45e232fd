/** Bytes, little-endian fields, splitting, and a reader that hands out exact pieces. */
module Bytes {
  import opened Prelude

  type byte = n: nat | n < 256

  /** `n` in `width` little-endian bytes. */
  function Le(n: nat, width: nat): (s: seq<byte>)
    ensures |s| == width
  {
    if width == 0 then [] else [n % 256] + Le(n / 256, width - 1)
  }

  function FromLe(s: seq<byte>): nat {
    if s == [] then 0 else s[0] + 256 * FromLe(s[1..])
  }

  function Pow256(width: nat): nat {
    if width == 0 then 1 else 256 * Pow256(width - 1)
  }

  const U32_MAX: nat := 0xFFFF_FFFF

  lemma WidthsFit()
    ensures Pow256(4) == U32_MAX + 1 && Pow256(8) == U64_MAX + 1
  {
    assert Pow256(4) == 256 * (256 * (256 * (256 * Pow256(0))));
    assert Pow256(8) == 256 * (256 * (256 * (256 * Pow256(4))));
  }

  lemma {:induction false} LeRoundTrip(n: nat, width: nat)
    requires n < Pow256(width)
    ensures FromLe(Le(n, width)) == n
  {
    if width > 0 {
      LeRoundTrip(n / 256, width - 1);
      assert Le(n, width)[1..] == Le(n / 256, width - 1);
    }
  }

  lemma {:induction false} FromLeRoundTrip(s: seq<byte>)
    ensures FromLe(s) < Pow256(|s|) && Le(FromLe(s), |s|) == s
  {
    if s != [] { FromLeRoundTrip(s[1..]); }
  }

  /** Four bytes as a number, least significant first. */
  function FourBytes(s: seq<byte>): nat
    requires |s| == 4
  {
    s[0] as nat + 0x100 * (s[1] as nat) + 0x1_0000 * (s[2] as nat) + 0x100_0000 * (s[3] as nat)
  }

  function EightBytes(s: seq<byte>): nat
    requires |s| == 8
  {
    FourBytes(s[..4]) + 0x1_0000_0000 * FourBytes(s[4..])
  }

  lemma FromLeIsFourBytes(s: seq<byte>)
    requires |s| == 4
    ensures FromLe(s) == FourBytes(s)
  {
    assert FromLe(s[4..]) == 0;
    assert s[1..][1..] == s[2..] && s[2..][1..] == s[3..] && s[3..][1..] == s[4..];
    assert FromLe(s[3..]) == s[3] as nat && FromLe(s[2..]) == s[2] as nat + 256 * (s[3] as nat);
    assert FromLe(s[1..]) == s[1] as nat + 256 * (s[2] as nat + 256 * (s[3] as nat));
  }

  /** The low four bytes come first. */
  lemma FromLeInTwo(s: seq<byte>)
    requires |s| == 8
    ensures FromLe(s) == FromLe(s[..4]) + 0x1_0000_0000 * FromLe(s[4..])
  {
    FromLeIsFourBytes(s[..4]);
    assert s[1..][1..] == s[2..] && s[2..][1..] == s[3..] && s[3..][1..] == s[4..];
    assert FromLe(s) == s[0] + 256 * FromLe(s[1..]) && FromLe(s[1..]) == s[1] + 256 * FromLe(s[2..]);
    assert FromLe(s[2..]) == s[2] + 256 * FromLe(s[3..]) && FromLe(s[3..]) == s[3] + 256 * FromLe(s[4..]);
  }

  lemma FromLeIsEightBytes(s: seq<byte>)
    requires |s| == 8
    ensures FromLe(s) == EightBytes(s)
  {
    FromLeInTwo(s);
    FromLeIsFourBytes(s[..4]);
    FromLeIsFourBytes(s[4..]);
  }

  /** What a number's bytes are, worked out. */
  lemma LeBytes(n: nat)
    ensures n <= 0xFFFF_FFFF ==> FourBytes(Le(n, 4)) == n
    ensures n <= 0xFFFF_FFFF_FFFF_FFFF ==> EightBytes(Le(n, 8)) == n
  {
    WidthsFit();
    FromLeIsFourBytes(Le(n, 4));
    if n <= 0xFFFF_FFFF { LeRoundTrip(n, 4); }
    FromLeIsEightBytes(Le(n, 8));
    if n <= 0xFFFF_FFFF_FFFF_FFFF { LeRoundTrip(n, 8); }
  }

  /** A length in `width` bytes and that many bytes after it: the content, and what follows. */
  function TakeField(rest: seq<byte>, width: nat): Option<(seq<byte>, seq<byte>)> {
    if |rest| < width || |rest| - width < FromLe(rest[..width]) then None
    else
      var end := width + FromLe(rest[..width]);
      Some((rest[width..end], rest[end..]))
  }

  function PutField(content: seq<byte>, width: nat): seq<byte> {
    Le(|content|, width) + content
  }

  lemma FieldReadsBack(content: seq<byte>, width: nat, rest: seq<byte>)
    requires |content| < Pow256(width)
    ensures TakeField(PutField(content, width) + rest, width) == Some((content, rest))
  {
    LeRoundTrip(|content|, width);
    var s := PutField(content, width) + rest;
    assert s[..width] == Le(|content|, width);
    assert s[width..width + |content|] == content && s[width + |content|..] == rest;
  }

  lemma FieldWasPut(rest: seq<byte>, width: nat)
    requires TakeField(rest, width).Some?
    ensures var (content, after) := TakeField(rest, width).value;
      rest == PutField(content, width) + after && |content| < Pow256(width)
  {
    FromLeRoundTrip(rest[..width]);
    var end := width + FromLe(rest[..width]);
    assert rest == rest[..width] + rest[width..end] + rest[end..];
  }

  /** Cut short anywhere, a field does not read. */
  lemma FieldNeedsAll(content: seq<byte>, width: nat, cut: nat)
    requires |content| < Pow256(width) && cut < |PutField(content, width)|
    ensures TakeField(PutField(content, width)[..cut], width).None?
  {
    var s := PutField(content, width);
    if cut >= width {
      LeRoundTrip(|content|, width);
      assert s[..cut][..width] == Le(|content|, width);
    }
  }

  /** A reader over bytes that are all there already. */
  class Reader {
    const data: seq<byte>
    var pos: nat

    ghost predicate Valid()
      reads this
    {
      pos <= |data|
    }

    ghost function Rest(): seq<byte>
      requires Valid()
      reads this
    {
      data[pos..]
    }

    constructor (data: seq<byte>)
      ensures Valid() && Rest() == data
    {
      this.data := data;
      pos := 0;
    }

    /** `read_exact`: all of `n` bytes, or the end of the file. */
    method ReadExact(n: nat) returns (r: Option<seq<byte>>)
      requires Valid()
      modifies this
      ensures Valid()
      ensures r.Some? <==> n <= |old(Rest())|
      ensures r.Some? ==> r.value == old(Rest())[..n] && Rest() == old(Rest())[n..] && pos == old(pos) + n
    {
      if n > |data| - pos {
        return None;
      }
      r := Some(data[pos..pos + n]);
      pos := pos + n;
    }

    /** A length, then that many bytes. */
    method ReadField(width: nat) returns (r: Option<seq<byte>>)
      requires Valid()
      modifies this
      ensures Valid()
      ensures r.Some? <==> TakeField(old(Rest()), width).Some?
      ensures r.Some? ==> TakeField(old(Rest()), width).value == (r.value, Rest())
    {
      ghost var rest := Rest();
      var length := ReadExact(width);
      if length.None? {
        return None;
      }
      var n := FromLe(length.value);
      r := ReadExact(n);
      if r.Some? {
        assert r.value == rest[width..width + n];
        assert Rest() == rest[width + n..];
      }
    }
  }
}

/** Self-delimiting records one after another, whatever a record is. */
module Records {
  import opened Prelude
  import opened Bytes

  type Read<!V, !E> = seq<byte> -> Result<(V, seq<byte>), E>

  function WriteMany<V>(write: V -> seq<byte>, values: seq<V>): seq<byte> {
    if values == [] then [] else write(values[0]) + WriteMany(write, values[1..])
  }

  function ReadMany<V, E>(read: Read<V, E>, rest: seq<byte>, count: nat): Result<(seq<V>, seq<byte>), E>
    decreases count
  {
    if count == 0 then Ok(([], rest))
    else
      var first := read(rest);
      if first.Err? then Err(first.error)
      else Prepended([first.value.0], ReadMany(read, first.value.1, count - 1))
  }

  function Prepended<V, E>(values: seq<V>, r: Result<(seq<V>, seq<byte>), E>): Result<(seq<V>, seq<byte>), E> {
    if r.Err? then r else Ok((values + r.value.0, r.value.1))
  }

  lemma PrependedNothing<V, E>(r: Result<(seq<V>, seq<byte>), E>)
    ensures Prepended([], r) == r
  {
    if r.Ok? { assert [] + r.value.0 == r.value.0; }
  }

  lemma PrependedTwice<V, E>(a: seq<V>, b: seq<V>, r: Result<(seq<V>, seq<byte>), E>)
    ensures Prepended(a, Prepended(b, r)) == Prepended(a + b, r)
  {
    if r.Ok? { assert a + (b + r.value.0) == (a + b) + r.value.0; }
  }

  /** One more record read on the way through a list. */
  lemma ReadOn<V, E>(read: Read<V, E>, values: seq<V>, rest: seq<byte>, count: nat)
    requires count > 0
    ensures var first := read(rest);
      Prepended(values, ReadMany(read, rest, count)) ==
        if first.Err? then Err(first.error)
        else Prepended(values + [first.value.0], ReadMany(read, first.value.1, count - 1))
  {
    var first := read(rest);
    if first.Ok? { PrependedTwice(values, [first.value.0], ReadMany(read, first.value.1, count - 1)); }
  }

  /** Nothing is left to read. */
  lemma ReadOut<V, E>(read: Read<V, E>, values: seq<V>, rest: seq<byte>)
    ensures Prepended(values, ReadMany(read, rest, 0)) == Ok((values, rest))
  {
    assert values + [] == values;
  }

  /** If every record reads back and leaves what follows, so does a list of them. */
  lemma {:induction false} ReadsBack<V, E>(read: Read<V, E>, write: V -> seq<byte>, values: seq<V>, tail: seq<byte>)
    requires forall v <- values, r: seq<byte> :: read(write(v) + r) == Ok((v, r))
    ensures ReadMany(read, WriteMany(write, values) + tail, |values|) == Ok((values, tail))
  {
    if values != [] {
      assert values[0] in values && forall v <- values[1..] :: v in values;
      ReadsBack(read, write, values[1..], tail);
      ReadsFirst(read, write, values, tail);
    } else {
      assert WriteMany(write, values) + tail == tail;
    }
  }

  lemma ReadsFirst<V, E>(read: Read<V, E>, write: V -> seq<byte>, values: seq<V>, tail: seq<byte>)
    requires values != []
    requires var more := WriteMany(write, values[1..]) + tail;
      && read(write(values[0]) + more) == Ok((values[0], more))
      && ReadMany(read, more, |values| - 1) == Ok((values[1..], tail))
    ensures ReadMany(read, WriteMany(write, values) + tail, |values|) == Ok((values, tail))
  {
    var more := WriteMany(write, values[1..]) + tail;
    assert WriteMany(write, values) + tail == write(values[0]) + more;
    assert [values[0]] + values[1..] == values;
  }

  /** If every record of a list reads back and what follows does not read, its error is the
      error of any longer list. */
  lemma {:induction false} FailsAtFirst<V, E>(
      read: Read<V, E>, write: V -> seq<byte>, values: seq<V>, rest: seq<byte>, count: nat)
    requires forall v <- values, r: seq<byte> :: read(write(v) + r) == Ok((v, r))
    requires |values| < count && read(rest).Err?
    ensures ReadMany(read, WriteMany(write, values) + rest, count) == Err(read(rest).error)
    decreases |values|
  {
    if values == [] {
      assert WriteMany(write, values) + rest == rest;
    } else {
      assert values[0] in values && forall v <- values[1..] :: v in values;
      FailsAtFirst(read, write, values[1..], rest, count - 1);
      assert WriteMany(write, values) + rest == write(values[0]) + (WriteMany(write, values[1..]) + rest);
    }
  }

  /** If whatever reads was written, so was whatever reads as a list. */
  lemma {:induction false} WasWritten<V(!new), E(!new)>(
      read: Read<V, E>, write: V -> seq<byte>, good: V -> bool, rest: seq<byte>, count: nat)
    requires forall r: seq<byte> ::
      read(r).Ok? ==> r == write(read(r).value.0) + read(r).value.1 && good(read(r).value.0)
    requires ReadMany(read, rest, count).Ok?
    ensures var (values, tail) := ReadMany(read, rest, count).value;
      |values| == count && rest == WriteMany(write, values) + tail && forall v <- values :: good(v)
    decreases count
  {
    if count > 0 {
      var (v, after) := read(rest).value;
      WasWritten(read, write, good, after, count - 1);
      var (more, tail) := ReadMany(read, after, count - 1).value;
      assert ([v] + more)[1..] == more;
      assert rest == WriteMany(write, [v] + more) + tail;
    } else {
      assert rest == WriteMany(write, []) + rest;
    }
  }
}

module Splitting {

  /** `split`: the parts between separators, always at least one. */
  function Split<C>(s: seq<C>, separator: C -> bool): (parts: seq<seq<C>>)
    ensures |parts| >= 1
  {
    if s == [] then [[]]
    else
      var rest := Split(s[1..], separator);
      if separator(s[0]) then [[]] + rest else [[s[0]] + rest[0]] + rest[1..]
  }

  predicate Free<C>(s: seq<C>, separator: C -> bool) {
    forall i :: 0 <= i < |s| ==> !separator(s[i])
  }

  lemma {:induction false} PartsAreFree<C>(s: seq<C>, separator: C -> bool)
    ensures forall part <- Split(s, separator) :: Free(part, separator)
  {
    if s != [] {
      PartsAreFree(s[1..], separator);
      var rest := Split(s[1..], separator);
      forall part | part in Split(s, separator) ensures Free(part, separator) {
        assert rest[0] in rest;
        assert separator(s[0]) ==> part == [] || part in rest;
        assert !separator(s[0]) ==> part == [s[0]] + rest[0] || part in rest;
      }
    }
  }

  lemma {:induction false} SplitFree<C>(s: seq<C>, separator: C -> bool)
    requires Free(s, separator)
    ensures Split(s, separator) == [s]
  {
    if s != [] {
      SplitFree(s[1..], separator);
      assert [s[0]] + s[1..] == s;
    }
  }

  /** A separator divides the splitting in two. */
  lemma {:induction false} SplitAt<C>(a: seq<C>, c: C, b: seq<C>, separator: C -> bool)
    requires separator(c)
    ensures Split(a + [c] + b, separator) == Split(a, separator) + Split(b, separator)
  {
    if a == [] {
      assert (a + [c] + b)[1..] == b;
    } else {
      assert (a + [c] + b)[1..] == a[1..] + [c] + b;
      SplitAt(a[1..], c, b, separator);
    }
  }

  /** Two separator tests that agree on the input split it alike. */
  lemma {:induction false} SplitAgrees<C>(s: seq<C>, f: C -> bool, g: C -> bool)
    requires forall i :: 0 <= i < |s| ==> f(s[i]) == g(s[i])
    ensures Split(s, f) == Split(s, g)
  {
    if s != [] { SplitAgrees(s[1..], f, g); }
  }
}
