/** Length-prefixed little-endian data: how values are written, how they are parsed back,
    and the two laws that make a parser the exact inverse of an encoder. */
module Codec {

  const WORD_LIMIT: nat := 0x1_0000_0000

  type byte = x: int | 0 <= x < 256
  type u32 = x: int | 0 <= x < 0x1_0000_0000

  datatype Parsed<+T> = Fail | Ok(value: T, rest: seq<byte>) {
    predicate IsFailure() {
      Fail?
    }

    function PropagateFailure<U>(): Parsed<U>
      requires Fail?
    {
      Fail
    }

    function Extract(): (T, seq<byte>)
      requires Ok?
    {
      (value, rest)
    }
  }

  /** Parsing what was written gives the value back and leaves what follows untouched. */
  ghost predicate Decodes<T(!new)>(parse: seq<byte> -> Parsed<T>, encode: T -> seq<byte>, valid: T -> bool) {
    forall x, rest | valid(x) :: parse(encode(x) + rest) == Ok(x, rest)
  }

  /** Whatever can be parsed had been written that way. */
  ghost predicate Exact<T(!new)>(parse: seq<byte> -> Parsed<T>, encode: T -> seq<byte>, valid: T -> bool) {
    forall b | parse(b).Ok? :: Written(encode, valid, b, parse(b).value, parse(b).rest)
  }

  ghost predicate Written<T>(encode: T -> seq<byte>, valid: T -> bool, b: seq<byte>, x: T, rest: seq<byte>) {
    valid(x) && b == encode(x) + rest
  }

  ghost predicate Inverse<T(!new)>(parse: seq<byte> -> Parsed<T>, encode: T -> seq<byte>, valid: T -> bool) {
    Decodes(parse, encode, valid) && Exact(parse, encode, valid)
  }

  lemma {:induction false} Associative(a: seq<byte>, b: seq<byte>, c: seq<byte>)
    ensures (a + b) + c == a + (b + c)
  {
  }

  lemma {:induction false} Regroup3(a: seq<byte>, b: seq<byte>, c: seq<byte>, rest: seq<byte>)
    ensures (a + (b + c)) + rest == a + (b + (c + rest))
  {
  }

  lemma {:induction false} Regroup4(a: seq<byte>, b: seq<byte>, c: seq<byte>, d: seq<byte>, rest: seq<byte>)
    ensures (a + (b + (c + d))) + rest == a + (b + (c + (d + rest)))
  {
    Regroup3(b, c, d, rest);
    Associative(a, b + (c + d), rest);
  }

  lemma {:induction false} Regroup5(a: seq<byte>, b: seq<byte>, c: seq<byte>, d: seq<byte>, e: seq<byte>, rest: seq<byte>)
    ensures (a + (b + (c + (d + e)))) + rest == a + (b + (c + (d + (e + rest))))
  {
    Regroup4(b, c, d, e, rest);
    Associative(a, b + (c + (d + e)), rest);
  }

  // ---------------------------------------------------------------- numbers

  /** The numbers below this limit fit into `size` bytes. */
  function Limit(size: nat): (r: nat)
    ensures r > 0
  {
    if size == 0 then 1 else 256 * Limit(size - 1)
  }

  /** The low `size` bytes of a number, lowest first. */
  function Bytes(w: nat, size: nat): (r: seq<byte>)
    ensures |r| == size
  {
    if size == 0 then [] else [w % 256] + Bytes(w / 256, size - 1)
  }

  function Value(b: seq<byte>): (r: nat)
    ensures r < Limit(|b|)
  {
    if b == [] then 0 else b[0] + 256 * Value(b[1..])
  }

  lemma {:induction false} ValueOfBytes(w: nat, size: nat)
    requires w < Limit(size)
    ensures Value(Bytes(w, size)) == w
  {
    if size > 0 {
      ValueOfBytes(w / 256, size - 1);
      assert Bytes(w, size)[1..] == Bytes(w / 256, size - 1);
    }
  }

  lemma {:induction false} BytesOfValue(b: seq<byte>)
    ensures Bytes(Value(b), |b|) == b
  {
    if b != [] {
      BytesOfValue(b[1..]);
      assert Value(b) % 256 == b[0] && Value(b) / 256 == Value(b[1..]);
    }
  }

  lemma {:induction false} WordLimit()
    ensures Limit(4) == WORD_LIMIT
  {
  }

  function EncodeWord(w: nat): seq<byte> {
    Bytes(w, 4)
  }

  function ParseWord(b: seq<byte>): Parsed<u32> {
    if |b| < 4 then Fail else WordLimit(); Ok(Value(b[..4]), b[4..])
  }

  lemma {:induction false} WordEncoded(w: nat, rest: seq<byte>)
    requires w < WORD_LIMIT
    ensures ParseWord(EncodeWord(w) + rest) == Ok(w, rest)
  {
    WordLimit();
    ValueOfBytes(w, 4);
    var b := EncodeWord(w) + rest;
    assert b[..4] == EncodeWord(w) && b[4..] == rest;
  }

  lemma {:induction false} WordParsed(b: seq<byte>)
    requires ParseWord(b).Ok?
    ensures b == EncodeWord(ParseWord(b).value) + ParseWord(b).rest
  {
    BytesOfValue(b[..4]);
    assert b == b[..4] + b[4..];
  }

  lemma {:induction false} WordsInverse()
    ensures Inverse(ParseWord, (w: u32) => EncodeWord(w), (w: u32) => true)
  {
    forall w: u32, rest ensures ParseWord(EncodeWord(w) + rest) == Ok(w, rest) {
      WordEncoded(w, rest);
    }
    forall b | ParseWord(b).Ok? ensures b == EncodeWord(ParseWord(b).value) + ParseWord(b).rest {
      WordParsed(b);
    }
  }

  // ---------------------------------------------------------------- strings

  predicate Sized<T>(s: seq<T>) {
    |s| < WORD_LIMIT
  }

  function EncodeString(s: seq<byte>): seq<byte> {
    EncodeWord(|s|) + s
  }

  function ParseString(b: seq<byte>): Parsed<seq<byte>> {
    var (n, rest) :- ParseWord(b);
    if |rest| < n then Fail else Ok(rest[..n], rest[n..])
  }

  lemma {:induction false} StringEncoded(s: seq<byte>, rest: seq<byte>)
    requires Sized(s)
    ensures ParseString(EncodeString(s) + rest) == Ok(s, rest)
  {
    Associative(EncodeWord(|s|), s, rest);
    WordEncoded(|s|, s + rest);
    assert (s + rest)[..|s|] == s && (s + rest)[|s|..] == rest;
  }

  lemma {:induction false} StringParsed(b: seq<byte>)
    requires ParseString(b).Ok?
    ensures Sized(ParseString(b).value) && b == EncodeString(ParseString(b).value) + ParseString(b).rest
  {
    WordParsed(b);
    var w := ParseWord(b);
    assert w.rest == w.rest[..w.value] + w.rest[w.value..];
    Associative(EncodeWord(w.value), w.rest[..w.value], w.rest[w.value..]);
  }

  lemma {:induction false} StringsInverse()
    ensures Inverse(ParseString, EncodeString, (s: seq<byte>) => Sized(s))
  {
    forall s: seq<byte>, rest | Sized(s) ensures ParseString(EncodeString(s) + rest) == Ok(s, rest) {
      StringEncoded(s, rest);
    }
    forall b | ParseString(b).Ok?
      ensures Sized(ParseString(b).value) && b == EncodeString(ParseString(b).value) + ParseString(b).rest
    {
      StringParsed(b);
    }
  }

  // ---------------------------------------------------------------- positions

  /** The little-endian word at byte `i`. */
  function WordAt(b: seq<byte>, i: nat): u32
    requires i + 4 <= |b|
  {
    var b0: nat, b1: nat, b2: nat, b3: nat := b[i], b[i + 1], b[i + 2], b[i + 3];
    b0 + 0x100 * b1 + 0x1_0000 * b2 + 0x100_0000 * b3
  }

  lemma {:induction false} WordBytes(w: nat)
    ensures EncodeWord(w) == [w % 0x100, w / 0x100 % 0x100, w / 0x1_0000 % 0x100, w / 0x100_0000 % 0x100]
  {
    var w1 := w / 256;
    var w2 := w1 / 256;
    var w3 := w2 / 256;
    assert w2 == w / 0x1_0000 && w3 == w / 0x100_0000;
    assert Bytes(w3, 1) == [w3 % 256] + Bytes(w3 / 256, 0) == [w3 % 256];
    assert Bytes(w2, 2) == [w2 % 256] + Bytes(w3, 1);
    assert Bytes(w1, 3) == [w1 % 256] + Bytes(w2, 2);
    assert Bytes(w, 4) == [w % 256] + Bytes(w1, 3);
  }

  /** What a word and a string are, in terms of the bytes they are read from. */
  lemma {:induction false} WordRead(b: seq<byte>)
    ensures ParseWord(b).Ok? <==> |b| >= 4
    ensures |b| >= 4 ==> ParseWord(b) == Ok(WordAt(b, 0), b[4..])
  {
    if |b| >= 4 {
      var b0: nat, b1: nat, b2: nat, b3: nat := b[0], b[1], b[2], b[3];
      var w := b[..4];
      assert Value(w[1..][1..][1..][1..]) == 0;
      assert Value(w[1..][1..][1..]) == b3;
      assert Value(w[1..][1..]) == b2 + 256 * b3;
      assert Value(w[1..]) == b1 + 256 * (b2 + 256 * b3);
      assert Value(w) == b0 + 256 * (b1 + 256 * (b2 + 256 * b3));
    }
  }

  lemma {:induction false} StringRead(b: seq<byte>)
    ensures ParseString(b).Ok? <==> |b| >= 4 && |b| >= 4 + WordAt(b, 0)
    ensures ParseString(b).Ok? ==>
      ParseString(b) == Ok(b[4..4 + WordAt(b, 0)], b[4 + WordAt(b, 0)..])
  {
    WordRead(b);
    if ParseString(b).Ok? {
      var n := WordAt(b, 0);
      assert b[4..][..n] == b[4..4 + n] && b[4..][n..] == b[4 + n..];
    }
  }

  /** Reading further on. */
  lemma {:induction false} WordReadAt(b: seq<byte>, i: nat)
    requires i <= |b|
    ensures ParseWord(b[i..]).Ok? <==> i + 4 <= |b|
    ensures i + 4 <= |b| ==> ParseWord(b[i..]) == Ok(WordAt(b, i), b[i + 4..])
  {
    WordRead(b[i..]);
    if i + 4 <= |b| {
      assert b[i..][4..] == b[i + 4..];
    }
  }

  lemma {:induction false} StringReadAt(b: seq<byte>, i: nat)
    requires i <= |b|
    ensures ParseString(b[i..]).Ok? <==> i + 4 <= |b| && i + 4 + WordAt(b, i) <= |b|
    ensures ParseString(b[i..]).Ok? ==>
      ParseString(b[i..]) == Ok(b[i + 4..i + 4 + WordAt(b, i)], b[i + 4 + WordAt(b, i)..])
  {
    StringRead(b[i..]);
    if ParseString(b[i..]).Ok? {
      var n := WordAt(b, i);
      assert b[i..][4..4 + n] == b[i + 4..i + 4 + n] && b[i..][4 + n..] == b[i + 4 + n..];
    }
  }

  // ---------------------------------------------------------------- repetition

  function EncodeMany<T>(encode: T -> seq<byte>, xs: seq<T>): seq<byte> {
    if xs == [] then [] else EncodeMany(encode, xs[..|xs| - 1]) + encode(xs[|xs| - 1])
  }

  /** `n` values one after the other. */
  function ParseMany<T>(parse: seq<byte> -> Parsed<T>, n: nat, b: seq<byte>): (r: Parsed<seq<T>>)
    ensures r.Ok? ==> |r.value| == n
  {
    if n == 0 then Ok([], b)
    else
      var (xs, rest) :- ParseMany(parse, n - 1, b);
      var (x, rest') :- parse(rest);
      Ok(xs + [x], rest')
  }

  /** Reading some values and then some more is reading all of them. */
  lemma {:induction false} ManySplit<T>(parse: seq<byte> -> Parsed<T>, m: nat, n: nat, b: seq<byte>)
    requires ParseMany(parse, m, b).Ok? && ParseMany(parse, n, ParseMany(parse, m, b).rest).Ok?
    ensures var r := ParseMany(parse, m, b);
      var q := ParseMany(parse, n, r.rest);
      ParseMany(parse, m + n, b) == Ok(r.value + q.value, q.rest)
  {
    if n == 0 {
      var r := ParseMany(parse, m, b);
      assert r.value + [] == r.value;
    } else {
      ManySplit(parse, m, n - 1, b);
      var r := ParseMany(parse, m, b);
      var front := ParseMany(parse, n - 1, r.rest);
      var x := parse(front.rest).value;
      assert (r.value + front.value) + [x] == r.value + (front.value + [x]);
    }
  }

  lemma {:induction false} ManyOne<T>(parse: seq<byte> -> Parsed<T>, b: seq<byte>)
    requires parse(b).Ok?
    ensures ParseMany(parse, 1, b) == Ok([parse(b).value], parse(b).rest)
  {
    assert ParseMany(parse, 0, b) == Ok([], b) && [] + [parse(b).value] == [parse(b).value];
  }

  ghost predicate AllValid<T>(valid: T -> bool, xs: seq<T>) {
    forall i | 0 <= i < |xs| :: valid(xs[i])
  }

  lemma {:induction false} ManyEncoded<T(!new)>(
    parse: seq<byte> -> Parsed<T>, encode: T -> seq<byte>, valid: T -> bool, xs: seq<T>, rest: seq<byte>)
    requires Decodes(parse, encode, valid) && AllValid(valid, xs)
    ensures ParseMany(parse, |xs|, EncodeMany(encode, xs) + rest) == Ok(xs, rest)
  {
    if xs == [] {
      assert EncodeMany(encode, xs) + rest == rest;
    } else {
      var front, last := xs[..|xs| - 1], xs[|xs| - 1];
      ManyEncoded(parse, encode, valid, front, encode(last) + rest);
      Associative(EncodeMany(encode, front), encode(last), rest);
      assert front + [last] == xs;
    }
  }

  lemma {:induction false} ManyParsed<T(!new)>(
    parse: seq<byte> -> Parsed<T>, encode: T -> seq<byte>, valid: T -> bool, n: nat, b: seq<byte>)
    requires Exact(parse, encode, valid) && ParseMany(parse, n, b).Ok?
    ensures AllValid(valid, ParseMany(parse, n, b).value)
    ensures b == EncodeMany(encode, ParseMany(parse, n, b).value) + ParseMany(parse, n, b).rest
  {
    if n == 0 {
      assert EncodeMany(encode, []) + b == b;
    } else {
      ManyParsed(parse, encode, valid, n - 1, b);
      var xs := ParseMany(parse, n - 1, b);
      var x := parse(xs.rest);
      assert Written(encode, valid, xs.rest, x.value, x.rest);
      assert (xs.value + [x.value])[..n - 1] == xs.value;
      Associative(EncodeMany(encode, xs.value), encode(x.value), x.rest);
    }
  }

  // ---------------------------------------------------------------- counted lists

  function EncodeList<T>(encode: T -> seq<byte>, xs: seq<T>): seq<byte> {
    EncodeWord(|xs|) + EncodeMany(encode, xs)
  }

  function ParseList<T>(parse: seq<byte> -> Parsed<T>, b: seq<byte>): Parsed<seq<T>> {
    var (n, rest) :- ParseWord(b);
    ParseMany(parse, n, rest)
  }

  lemma {:induction false} ListEncoded<T(!new)>(
    parse: seq<byte> -> Parsed<T>, encode: T -> seq<byte>, valid: T -> bool, xs: seq<T>, rest: seq<byte>)
    requires Decodes(parse, encode, valid) && AllValid(valid, xs) && Sized(xs)
    ensures ParseList(parse, EncodeList(encode, xs) + rest) == Ok(xs, rest)
  {
    Associative(EncodeWord(|xs|), EncodeMany(encode, xs), rest);
    WordEncoded(|xs|, EncodeMany(encode, xs) + rest);
    ManyEncoded(parse, encode, valid, xs, rest);
  }

  lemma {:induction false} ListParsed<T(!new)>(
    parse: seq<byte> -> Parsed<T>, encode: T -> seq<byte>, valid: T -> bool, b: seq<byte>)
    requires Exact(parse, encode, valid) && ParseList(parse, b).Ok?
    ensures AllValid(valid, ParseList(parse, b).value) && Sized(ParseList(parse, b).value)
    ensures b == EncodeList(encode, ParseList(parse, b).value) + ParseList(parse, b).rest
  {
    WordParsed(b);
    var w := ParseWord(b);
    ManyParsed(parse, encode, valid, w.value, w.rest);
    var r := ParseMany(parse, w.value, w.rest);
    Associative(EncodeWord(w.value), EncodeMany(encode, r.value), r.rest);
  }

  /** An encoding with an inverse is prefix-free, hence injective. */
  lemma {:induction false} PrefixFree<T(!new)>(
    parse: seq<byte> -> Parsed<T>, encode: T -> seq<byte>, valid: T -> bool, x: T, y: T, tail: seq<byte>)
    requires Decodes(parse, encode, valid) && valid(x) && valid(y)
    requires encode(y) == encode(x) + tail
    ensures x == y && tail == []
  {
    assert parse(encode(x) + tail) == Ok(x, tail);
    assert encode(y) + [] == encode(y);
    assert parse(encode(y) + []) == Ok(y, []);
  }
}
