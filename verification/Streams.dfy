/** The input stream the loaders read from.  A read past the end fails the stream: the
    value read is then arbitrary and every later read fails too. */
module Streams {
  import opened Wrappers
  import opened Codec

  /** What reading one value does to the unread bytes, `None` being a failed stream. */
  ghost predicate Reads<T>(before: Option<seq<byte>>, parse: seq<byte> -> Parsed<T>, x: T, after: Option<seq<byte>>) {
    if before.Some? && parse(before.value).Ok? then
      x == parse(before.value).value && after == Some(parse(before.value).rest)
    else
      after == None
  }

  /** What reading `n` values in a loop does. */
  ghost predicate ReadsMany<T>(
    before: Option<seq<byte>>, parse: seq<byte> -> Parsed<T>, n: nat, xs: seq<T>, after: Option<seq<byte>>)
  {
    if before.Some? && ParseMany(parse, n, before.value).Ok? then
      xs == ParseMany(parse, n, before.value).value && after == Some(ParseMany(parse, n, before.value).rest)
    else
      after == None
  }

  lemma {:induction false} ReadsNone<T>(before: Option<seq<byte>>, parse: seq<byte> -> Parsed<T>)
    ensures ReadsMany(before, parse, 0, [], before)
  {
  }

  lemma {:induction false} ReadsOneMore<T>(
    before: Option<seq<byte>>, parse: seq<byte> -> Parsed<T>, n: nat, xs: seq<T>, mid: Option<seq<byte>>,
    x: T, after: Option<seq<byte>>)
    requires ReadsMany(before, parse, n, xs, mid) && Reads(mid, parse, x, after)
    ensures ReadsMany(before, parse, n + 1, xs + [x], after)
  {
  }

  class ByteStream {
    const bytes: seq<byte>
    var position: nat
    var good: bool

    ghost predicate Valid()
      reads this
    {
      position <= |bytes|
    }

    ghost function Unread(): Option<seq<byte>>
      reads this
      requires Valid()
    {
      if good then Some(bytes[position..]) else None
    }

    constructor (bytes: seq<byte>)
      ensures this.bytes == bytes && Valid() && Unread() == Some(bytes)
    {
      this.bytes, position, good := bytes, 0, true;
    }

    /** The next `n` bytes. */
    method Read(n: nat) returns (b: seq<byte>)
      requires Valid()
      modifies this
      ensures Valid() && |b| == n
      ensures if old(Unread()).Some? && |old(Unread()).value| >= n
              then b == old(Unread()).value[..n] && Unread() == Some(old(Unread()).value[n..])
              else Unread() == None
    {
      if good && position + n <= |bytes| {
        b := bytes[position..position + n];
        position := position + n;
      } else {
        var filler: int := *;
        good := false;
        b := seq(n, _ => if 0 <= filler < 256 then filler else 0);
      }
    }

    /** An unsigned number of 32 bits; the host is little-endian. */
    method ReadUnsigned() returns (w: u32)
      requires Valid()
      modifies this
      ensures Valid() && Reads(old(Unread()), ParseWord, w, Unread())
    {
      var b := Read(4);
      WordLimit();
      w := Value(b);
    }

    method ReadString() returns (s: seq<byte>)
      requires Valid()
      modifies this
      ensures Valid() && Reads(old(Unread()), ParseString, s, Unread())
    {
      var size := ReadUnsigned();
      s := Read(size);
    }

    /** The magic number: 64 bits. */
    method ReadMagic() returns (magic: nat)
      requires Valid()
      modifies this
      ensures Valid() && Reads(old(Unread()), ParseMagic, magic, Unread())
    {
      var b := Read(8);
      magic := Value(b);
    }
  }

  function ParseMagic(b: seq<byte>): Parsed<nat> {
    if |b| < 8 then Fail else Ok(Value(b[..8]), b[8..])
  }

  function EncodeMagic(magic: nat): seq<byte> {
    Bytes(magic, 8)
  }

  /** The magic number that eight bytes stand for. */
  lemma {:induction false} MagicOf(b: seq<byte>, magic: nat)
    requires |b| == 8 && magic == Digits(b)
    ensures EncodeMagic(magic) == b
  {
    BytesOfValue(b);
    var b1 := b[1..];
    var b2 := b1[1..];
    var b3 := b2[1..];
    var b4 := b3[1..];
    var b5 := b4[1..];
    var b6 := b5[1..];
    var b7 := b6[1..];
    assert b7[1..] == [] && Value(b7) == b7[0];
    assert Value(b6) == b6[0] + 256 * Value(b7);
    assert Value(b5) == b5[0] + 256 * Value(b6);
    assert Value(b4) == b4[0] + 256 * Value(b5);
    assert Value(b3) == b3[0] + 256 * Value(b4);
    assert Value(b2) == b2[0] + 256 * Value(b3);
    assert Value(b1) == b1[0] + 256 * Value(b2);
    assert Value(b) == b[0] + 256 * Value(b1);
  }

  function Digits(b: seq<byte>): nat
    requires |b| == 8
  {
    var low, high := WordAt(b, 0), WordAt(b, 4);
    low + 0x1_0000_0000 * high
  }

  lemma {:induction false} MagicEncoded(magic: nat, rest: seq<byte>)
    requires magic < 0x1_0000_0000_0000_0000
    ensures ParseMagic(EncodeMagic(magic) + rest) == Ok(magic, rest)
  {
    assert Limit(4) == WORD_LIMIT && Limit(8) == WORD_LIMIT * WORD_LIMIT;
    ValueOfBytes(magic, 8);
    var b := EncodeMagic(magic) + rest;
    assert b[..8] == EncodeMagic(magic) && b[8..] == rest;
  }

  lemma {:induction false} MagicParsed(b: seq<byte>)
    requires ParseMagic(b).Ok?
    ensures b == EncodeMagic(ParseMagic(b).value) + ParseMagic(b).rest
  {
    BytesOfValue(b[..8]);
    assert b == b[..8] + b[8..];
  }
}
