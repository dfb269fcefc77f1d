/** The `.nyx` shader file: its layout, its parser, and the loader. */
module NyxFiles {
  import opened Wrappers
  import opened Codec
  import opened Streams

  const MAGIC: nat := 0x555755200d0a

  datatype Attribute = Attribute(name: seq<byte>, typeName: seq<byte>, size: u32, location: u32)

  datatype Uniform = Uniform(name: seq<byte>, kind: u32, binding: u32, size: u32)

  datatype Shader = Shader(spirv: seq<u32>, stage: u32, uniforms: seq<Uniform>)

  datatype File = File(version: u32, inputs: seq<Attribute>, outputs: seq<Attribute>, shaders: seq<Shader>)

  // ---------------------------------------------------------------- layout

  function EncodeAttribute(a: Attribute): seq<byte> {
    EncodeString(a.name) + (EncodeString(a.typeName) + (EncodeWord(a.size) + EncodeWord(a.location)))
  }

  function EncodeUniform(u: Uniform): seq<byte> {
    EncodeString(u.name) + (EncodeWord(u.kind) + (EncodeWord(u.binding) + EncodeWord(u.size)))
  }

  /** Counts come before what they count, but the stage sits between the code and the
      number of uniforms. */
  function EncodeShader(s: Shader): seq<byte> {
    EncodeList((w: u32) => EncodeWord(w), s.spirv) + (EncodeWord(s.stage) + EncodeList(EncodeUniform, s.uniforms))
  }

  function EncodeHeader(f: File): seq<byte> {
    EncodeMagic(MAGIC) + (EncodeWord(f.version) +
      (EncodeWord(|f.shaders|) + (EncodeWord(|f.inputs|) + EncodeWord(|f.outputs|))))
  }

  function EncodeBody(f: File): seq<byte> {
    EncodeMany(EncodeAttribute, f.inputs) +
      (EncodeMany(EncodeAttribute, f.outputs) + EncodeMany(EncodeShader, f.shaders))
  }

  function Encode(f: File): seq<byte> {
    EncodeHeader(f) + EncodeBody(f)
  }

  // ---------------------------------------------------------------- parsers

  function ParseAttribute(b: seq<byte>): Parsed<Attribute> {
    var (name, b) :- ParseString(b);
    var (typeName, b) :- ParseString(b);
    var (size, b) :- ParseWord(b);
    var (location, b) :- ParseWord(b);
    Ok(Attribute(name, typeName, size, location), b)
  }

  function ParseUniform(b: seq<byte>): Parsed<Uniform> {
    var (name, b) :- ParseString(b);
    var (kind, b) :- ParseWord(b);
    var (binding, b) :- ParseWord(b);
    var (size, b) :- ParseWord(b);
    Ok(Uniform(name, kind, binding, size), b)
  }

  function ParseShader(b: seq<byte>): Parsed<Shader> {
    var (spirv, b) :- ParseList(ParseWord, b);
    var (stage, b) :- ParseWord(b);
    var (uniforms, b) :- ParseList(ParseUniform, b);
    Ok(Shader(spirv, stage, uniforms), b)
  }

  datatype Header = Header(version: u32, shaders: u32, inputs: u32, outputs: u32)

  function ParseHeader(b: seq<byte>): Parsed<Header> {
    var (magic, b) :- ParseMagic(b);
    if magic != MAGIC then Fail
    else
      var (version, b) :- ParseWord(b);
      var (shaders, b) :- ParseWord(b);
      var (inputs, b) :- ParseWord(b);
      var (outputs, b) :- ParseWord(b);
      Ok(Header(version, shaders, inputs, outputs), b)
  }

  function ParseBody(h: Header, b: seq<byte>): Parsed<File> {
    var (inputs, b) :- ParseMany(ParseAttribute, h.inputs, b);
    var (outputs, b) :- ParseMany(ParseAttribute, h.outputs, b);
    var (shaders, b) :- ParseMany(ParseShader, h.shaders, b);
    Ok(File(h.version, inputs, outputs, shaders), b)
  }

  function Parse(b: seq<byte>): Parsed<File> {
    var (h, b) :- ParseHeader(b);
    ParseBody(h, b)
  }

  // ---------------------------------------------------------------- positions

  /** The bytes of a file: eight of magic, then the version, the numbers of shaders, inputs and
      outputs. */
  lemma {:induction false} HeaderRead(b: seq<byte>)
    requires ParseHeader(b).Ok?
    ensures |b| >= 24 && b[..8] == [0x0a, 0x0d, 0x20, 0x55, 0x57, 0x55, 0, 0]
    ensures ParseHeader(b) == Ok(Header(WordAt(b, 8), WordAt(b, 12), WordAt(b, 16), WordAt(b, 20)), b[24..])
  {
    BytesOfValue(b[..8]);
    MagicBytes();
    WordReadAt(b, 8);
    WordReadAt(b, 12);
    WordReadAt(b, 16);
    WordReadAt(b, 20);
  }

  lemma {:induction false} MagicBytes()
    ensures EncodeMagic(MAGIC) == [0x0a, 0x0d, 0x20, 0x55, 0x57, 0x55, 0, 0]
  {
    MagicOf([0x0a, 0x0d, 0x20, 0x55, 0x57, 0x55, 0, 0], MAGIC);
  }

  /** An input: its name up to byte `i`, its type up to byte `j`, its size and its location. */
  lemma {:induction false} AttributeRead(b: seq<byte>) returns (i: nat, j: nat)
    requires ParseAttribute(b).Ok?
    ensures 4 <= i && i + 4 <= j && j + 8 <= |b|
    ensures i == 4 + WordAt(b, 0) && j == i + 4 + WordAt(b, i)
    ensures ParseAttribute(b).value == Attribute(b[4..i], b[i + 4..j], WordAt(b, j), WordAt(b, j + 4))
    ensures ParseAttribute(b).rest == b[j + 8..]
  {
    StringRead(b);
    i := 4 + WordAt(b, 0);
    assert ParseString(b) == Ok(b[4..i], b[i..]);
    StringReadAt(b, i);
    j := i + 4 + WordAt(b, i);
    assert ParseString(b[i..]) == Ok(b[i + 4..j], b[j..]);
    TwoWordsRead(b, j);
  }

  lemma {:induction false} TwoWordsRead(b: seq<byte>, i: nat)
    requires i <= |b|
    ensures ParseWord(b[i..]).Ok? ==>
      && i + 4 <= |b| && ParseWord(b[i..]) == Ok(WordAt(b, i), b[i + 4..])
      && (ParseWord(b[i + 4..]).Ok? ==>
            i + 8 <= |b| && ParseWord(b[i + 4..]) == Ok(WordAt(b, i + 4), b[i + 8..]))
  {
    WordReadAt(b, i);
    if i + 4 <= |b| {
      WordReadAt(b, i + 4);
    }
  }

  /** A uniform: its name up to byte `i`, its type, its binding and its size. */
  lemma {:induction false} UniformRead(b: seq<byte>) returns (i: nat)
    requires ParseUniform(b).Ok?
    ensures i == 4 + WordAt(b, 0) && i + 12 <= |b|
    ensures ParseUniform(b).value == Uniform(b[4..i], WordAt(b, i), WordAt(b, i + 4), WordAt(b, i + 8))
    ensures ParseUniform(b).rest == b[i + 12..]
  {
    StringRead(b);
    i := 4 + WordAt(b, 0);
    WordReadAt(b, i);
    TwoWordsRead(b, i + 4);
  }

  /** A run of words, one every four bytes. */
  lemma {:induction false} WordsReadAt(b: seq<byte>, i: nat, n: nat)
    requires i <= |b| && ParseMany(ParseWord, n, b[i..]).Ok?
    ensures i + 4 * n <= |b| && ParseMany(ParseWord, n, b[i..]).rest == b[i + 4 * n..]
    ensures forall k | 0 <= k < n :: ParseMany(ParseWord, n, b[i..]).value[k] == WordAt(b, i + 4 * k)
  {
    if n > 0 {
      WordsReadAt(b, i, n - 1);
      WordReadAt(b, i + 4 * (n - 1));
    }
  }

  /** A shader: the number of code words and the code, the stage, and the number of uniforms,
      which follow. */
  lemma {:induction false} ShaderRead(b: seq<byte>) returns (n: nat)
    requires ParseShader(b).Ok?
    ensures 12 + 4 * n <= |b| && n == WordAt(b, 0) == |ParseShader(b).value.spirv|
    ensures forall k | 0 <= k < n :: ParseShader(b).value.spirv[k] == WordAt(b, 4 + 4 * k)
    ensures ParseShader(b).value.stage == WordAt(b, 4 + 4 * n)
    ensures |ParseShader(b).value.uniforms| == WordAt(b, 8 + 4 * n)
  {
    WordRead(b);
    n := WordAt(b, 0);
    WordsReadAt(b, 4, n);
    WordReadAt(b, 4 + 4 * n);
    WordReadAt(b, 8 + 4 * n);
  }

  // ---------------------------------------------------------------- round trip

  predicate AttributeOk(a: Attribute) {
    Sized(a.name) && Sized(a.typeName)
  }

  predicate UniformOk(u: Uniform) {
    Sized(u.name)
  }

  ghost predicate ShaderOk(s: Shader) {
    Sized(s.spirv) && Sized(s.uniforms) && AllValid(UniformOk, s.uniforms)
  }

  ghost predicate FileOk(f: File) {
    && Sized(f.inputs) && Sized(f.outputs) && Sized(f.shaders)
    && AllValid(AttributeOk, f.inputs) && AllValid(AttributeOk, f.outputs) && AllValid(ShaderOk, f.shaders)
  }

  lemma {:induction false} AttributeEncoded(a: Attribute, rest: seq<byte>)
    requires AttributeOk(a)
    ensures ParseAttribute(EncodeAttribute(a) + rest) == Ok(a, rest)
  {
    var l := EncodeWord(a.location);
    var s := EncodeWord(a.size);
    var t := EncodeString(a.typeName);
    Regroup4(EncodeString(a.name), t, s, l, rest);
    StringEncoded(a.name, t + (s + (l + rest)));
    StringEncoded(a.typeName, s + (l + rest));
    WordEncoded(a.size, l + rest);
    WordEncoded(a.location, rest);
  }

  lemma {:induction false} AttributeParsed(b: seq<byte>)
    requires ParseAttribute(b).Ok?
    ensures AttributeOk(ParseAttribute(b).value)
    ensures b == EncodeAttribute(ParseAttribute(b).value) + ParseAttribute(b).rest
  {
    StringParsed(b);
    var b1 := ParseString(b).rest;
    StringParsed(b1);
    var b2 := ParseString(b1).rest;
    WordParsed(b2);
    var b3 := ParseWord(b2).rest;
    WordParsed(b3);
    var a := ParseAttribute(b).value;
    Regroup4(EncodeString(a.name), EncodeString(a.typeName), EncodeWord(a.size), EncodeWord(a.location),
             ParseWord(b3).rest);
  }

  lemma {:induction false} AttributesInverse()
    ensures Inverse(ParseAttribute, EncodeAttribute, AttributeOk)
  {
    forall a, rest | AttributeOk(a) ensures ParseAttribute(EncodeAttribute(a) + rest) == Ok(a, rest) {
      AttributeEncoded(a, rest);
    }
    forall b | ParseAttribute(b).Ok?
      ensures Written(EncodeAttribute, AttributeOk, b, ParseAttribute(b).value, ParseAttribute(b).rest)
    {
      AttributeParsed(b);
    }
  }

  lemma {:induction false} UniformEncoded(u: Uniform, rest: seq<byte>)
    requires UniformOk(u)
    ensures ParseUniform(EncodeUniform(u) + rest) == Ok(u, rest)
  {
    var k, b, s := EncodeWord(u.kind), EncodeWord(u.binding), EncodeWord(u.size);
    Regroup4(EncodeString(u.name), k, b, s, rest);
    StringEncoded(u.name, k + (b + (s + rest)));
    WordEncoded(u.kind, b + (s + rest));
    WordEncoded(u.binding, s + rest);
    WordEncoded(u.size, rest);
  }

  lemma {:induction false} UniformParsed(b: seq<byte>)
    requires ParseUniform(b).Ok?
    ensures UniformOk(ParseUniform(b).value)
    ensures b == EncodeUniform(ParseUniform(b).value) + ParseUniform(b).rest
  {
    StringParsed(b);
    var b1 := ParseString(b).rest;
    WordParsed(b1);
    var b2 := ParseWord(b1).rest;
    WordParsed(b2);
    WordParsed(ParseWord(b2).rest);
  }

  lemma {:induction false} UniformsInverse()
    ensures Inverse(ParseUniform, EncodeUniform, UniformOk)
  {
    forall u, rest | UniformOk(u) ensures ParseUniform(EncodeUniform(u) + rest) == Ok(u, rest) {
      UniformEncoded(u, rest);
    }
    forall b | ParseUniform(b).Ok?
      ensures Written(EncodeUniform, UniformOk, b, ParseUniform(b).value, ParseUniform(b).rest)
    {
      UniformParsed(b);
    }
  }

  lemma {:induction false} ShaderEncoded(s: Shader, rest: seq<byte>)
    requires ShaderOk(s)
    ensures ParseShader(EncodeShader(s) + rest) == Ok(s, rest)
  {
    var c := EncodeList((w: u32) => EncodeWord(w), s.spirv);
    var t := EncodeWord(s.stage);
    var u := EncodeList(EncodeUniform, s.uniforms);
    Regroup3(c, t, u, rest);
    WordsInverse();
    ListEncoded(ParseWord, (w: u32) => EncodeWord(w), (w: u32) => true, s.spirv, t + (u + rest));
    WordEncoded(s.stage, u + rest);
    UniformsInverse();
    ListEncoded(ParseUniform, EncodeUniform, UniformOk, s.uniforms, rest);
  }

  lemma {:induction false} ShaderParsed(b: seq<byte>)
    requires ParseShader(b).Ok?
    ensures ShaderOk(ParseShader(b).value)
    ensures b == EncodeShader(ParseShader(b).value) + ParseShader(b).rest
  {
    WordsInverse();
    ListParsed(ParseWord, (w: u32) => EncodeWord(w), (w: u32) => true, b);
    var code := ParseList(ParseWord, b);
    var stage := ParseWord(code.rest);
    WordParsed(code.rest);
    UniformsInverse();
    ListParsed(ParseUniform, EncodeUniform, UniformOk, stage.rest);
    var uniforms := ParseList(ParseUniform, stage.rest);
    Regroup3(EncodeList((w: u32) => EncodeWord(w), code.value), EncodeWord(stage.value),
             EncodeList(EncodeUniform, uniforms.value), uniforms.rest);
  }

  lemma {:induction false} ShadersInverse()
    ensures Inverse(ParseShader, EncodeShader, ShaderOk)
  {
    forall s, rest | ShaderOk(s) ensures ParseShader(EncodeShader(s) + rest) == Ok(s, rest) {
      ShaderEncoded(s, rest);
    }
    forall b | ParseShader(b).Ok?
      ensures Written(EncodeShader, ShaderOk, b, ParseShader(b).value, ParseShader(b).rest)
    {
      ShaderParsed(b);
    }
  }

  lemma {:induction false} HeaderEncoded(f: File, rest: seq<byte>)
    requires Sized(f.inputs) && Sized(f.outputs) && Sized(f.shaders)
    ensures ParseHeader(EncodeHeader(f) + rest) == Ok(Header(f.version, |f.shaders|, |f.inputs|, |f.outputs|), rest)
  {
    var m, v := EncodeMagic(MAGIC), EncodeWord(f.version);
    var s, i, o := EncodeWord(|f.shaders|), EncodeWord(|f.inputs|), EncodeWord(|f.outputs|);
    Regroup5(m, v, s, i, o, rest);
    MagicEncoded(MAGIC, v + (s + (i + (o + rest))));
    WordEncoded(f.version, s + (i + (o + rest)));
    WordEncoded(|f.shaders|, i + (o + rest));
    WordEncoded(|f.inputs|, o + rest);
    WordEncoded(|f.outputs|, rest);
  }

  lemma {:induction false} HeaderParsed(b: seq<byte>, f: File)
    requires ParseHeader(b).Ok?
    requires var h := ParseHeader(b).value;
      h.version == f.version && h.shaders == |f.shaders| && h.inputs == |f.inputs| && h.outputs == |f.outputs|
    ensures b == EncodeHeader(f) + ParseHeader(b).rest
  {
    MagicParsed(b);
    var b1 := ParseMagic(b).rest;
    WordParsed(b1);
    var b2 := ParseWord(b1).rest;
    WordParsed(b2);
    var b3 := ParseWord(b2).rest;
    WordParsed(b3);
    WordParsed(ParseWord(b3).rest);
  }

  lemma {:induction false} BodyEncoded(h: Header, f: File, rest: seq<byte>)
    requires FileOk(f) && h == Header(f.version, |f.shaders|, |f.inputs|, |f.outputs|)
    ensures ParseBody(h, EncodeBody(f) + rest) == Ok(f, rest)
  {
    var i := EncodeMany(EncodeAttribute, f.inputs);
    var o, s := EncodeMany(EncodeAttribute, f.outputs), EncodeMany(EncodeShader, f.shaders);
    Regroup3(i, o, s, rest);
    AttributesInverse();
    ShadersInverse();
    ManyEncoded(ParseAttribute, EncodeAttribute, AttributeOk, f.inputs, o + (s + rest));
    ManyEncoded(ParseAttribute, EncodeAttribute, AttributeOk, f.outputs, s + rest);
    ManyEncoded(ParseShader, EncodeShader, ShaderOk, f.shaders, rest);
  }

  lemma {:induction false} BodyParsed(h: Header, b: seq<byte>)
    requires ParseBody(h, b).Ok?
    ensures FileOk(ParseBody(h, b).value)
    ensures var f := ParseBody(h, b).value;
      h.version == f.version && h.shaders == |f.shaders| && h.inputs == |f.inputs| && h.outputs == |f.outputs|
    ensures b == EncodeBody(ParseBody(h, b).value) + ParseBody(h, b).rest
  {
    AttributesInverse();
    ShadersInverse();
    var i := ParseMany(ParseAttribute, h.inputs, b);
    var o := ParseMany(ParseAttribute, h.outputs, i.rest);
    var s := ParseMany(ParseShader, h.shaders, o.rest);
    ManyParsed(ParseAttribute, EncodeAttribute, AttributeOk, h.inputs, b);
    ManyParsed(ParseAttribute, EncodeAttribute, AttributeOk, h.outputs, i.rest);
    ManyParsed(ParseShader, EncodeShader, ShaderOk, h.shaders, o.rest);
    var ei, eo := EncodeMany(EncodeAttribute, i.value), EncodeMany(EncodeAttribute, o.value);
    Associative(eo, EncodeMany(EncodeShader, s.value), s.rest);
    Associative(ei, eo + EncodeMany(EncodeShader, s.value), s.rest);
  }

  lemma {:induction false} FileEncoded(f: File, rest: seq<byte>)
    requires FileOk(f)
    ensures Parse(Encode(f) + rest) == Ok(f, rest)
  {
    Associative(EncodeHeader(f), EncodeBody(f), rest);
    HeaderEncoded(f, EncodeBody(f) + rest);
    BodyEncoded(Header(f.version, |f.shaders|, |f.inputs|, |f.outputs|), f, rest);
  }

  lemma {:induction false} FileParsed(b: seq<byte>)
    requires Parse(b).Ok?
    ensures FileOk(Parse(b).value)
    ensures b == Encode(Parse(b).value) + Parse(b).rest
  {
    var h := ParseHeader(b);
    BodyParsed(h.value, h.rest);
    var f := Parse(b).value;
    HeaderParsed(b, f);
    Associative(EncodeHeader(f), EncodeBody(f), Parse(b).rest);
  }

  /** The parser is the exact inverse of the layout: it undoes every encoding, leaving any
      suffix alone, and accepts nothing else. */
  lemma {:induction false} RoundTrip()
    ensures Inverse(Parse, Encode, FileOk)
  {
    forall f, rest | FileOk(f) ensures Parse(Encode(f) + rest) == Ok(f, rest) {
      FileEncoded(f, rest);
    }
    forall b | Parse(b).Ok? ensures Written(Encode, FileOk, b, Parse(b).value, Parse(b).rest) {
      FileParsed(b);
    }
  }

  /** No encoding is a proper prefix of another, and different files are encoded
      differently. */
  lemma {:induction false} EncodingsDiffer(f: File, g: File, tail: seq<byte>)
    requires FileOk(f) && FileOk(g) && Encode(g) == Encode(f) + tail
    ensures f == g && tail == []
  {
    RoundTrip();
    PrefixFree(Parse, Encode, FileOk, f, g, tail);
  }

  // ---------------------------------------------------------------- the shader map

  /** Inserting into the map keeps the shader that is already there. */
  function Insert(m: map<u32, Shader>, s: Shader): map<u32, Shader> {
    if s.stage in m then m else m[s.stage := s]
  }

  function ByStage(shaders: seq<Shader>): map<u32, Shader> {
    if shaders == [] then map[]
    else Insert(ByStage(shaders[..|shaders| - 1]), shaders[|shaders| - 1])
  }

  lemma {:induction false} ByStageAppend(shaders: seq<Shader>, s: Shader)
    ensures ByStage(shaders + [s]) == Insert(ByStage(shaders), s)
  {
    assert (shaders + [s])[..|shaders|] == shaders;
  }

  /** The map holds exactly the stages of the file, each with its first shader. */
  lemma {:induction false} FirstPerStage(shaders: seq<Shader>, i: nat)
    requires i < |shaders|
    ensures shaders[i].stage in ByStage(shaders)
    ensures (forall j | 0 <= j < i :: shaders[j].stage != shaders[i].stage)
            <==> FirstOf(shaders, shaders[i].stage) == i
    ensures ByStage(shaders)[shaders[i].stage] == shaders[FirstOf(shaders, shaders[i].stage)]
  {
    var n := |shaders| - 1;
    var front := shaders[..n];
    if i < n {
      FirstPerStage(front, i);
    } else {
      OnlyFileStages(front, shaders[n].stage);
      if shaders[n].stage in ByStage(front) {
        var k :| 0 <= k < n && front[k].stage == shaders[n].stage;
        FirstPerStage(front, k);
      }
    }
  }

  lemma {:induction false} OnlyFileStages(shaders: seq<Shader>, stage: u32)
    ensures stage in ByStage(shaders) <==> exists i :: 0 <= i < |shaders| && shaders[i].stage == stage
  {
    if shaders != [] {
      var n := |shaders| - 1;
      var front := shaders[..n];
      OnlyFileStages(front, stage);
      if i :| 0 <= i < |shaders| && shaders[i].stage == stage {
        assert i < n ==> front[i].stage == stage;
      }
      if i :| 0 <= i < |front| && front[i].stage == stage {
        assert shaders[i].stage == stage;
      }
    }
  }

  /** The index of the first shader of a stage, or the length. */
  function FirstOf(shaders: seq<Shader>, stage: u32): (r: nat)
    ensures r <= |shaders|
    ensures forall j | 0 <= j < r :: shaders[j].stage != stage
    ensures r < |shaders| ==> shaders[r].stage == stage
  {
    if shaders == [] then 0
    else
      var k := FirstOf(shaders[..|shaders| - 1], stage);
      if k < |shaders| - 1 || shaders[|shaders| - 1].stage == stage then k else k + 1
  }

  // ---------------------------------------------------------------- the loader

  class NyxFile {
    var inputs: seq<Attribute>
    var outputs: seq<Attribute>
    var shaders: map<u32, Shader>
    var version: u32

    constructor ()
      ensures inputs == [] && outputs == [] && shaders == map[]
    {
      inputs, outputs, shaders, version := [], [], map[], 0;
    }

    /** Loads a file from bytes.  Whatever follows the encoding is ignored.  Inputs and
        outputs are appended to those of earlier loads; the shader map starts empty and
        keeps the first shader of each stage.  A wrong magic number only empties the map. */
    method Load(bytes: seq<byte>)
      modifies this
      ensures Parse(bytes).Ok? ==>
        var f := Parse(bytes).value;
        && version == f.version
        && inputs == old(inputs) + f.inputs
        && outputs == old(outputs) + f.outputs
        && shaders == ByStage(f.shaders)
      ensures ParseMagic(bytes).Ok? && ParseMagic(bytes).value != MAGIC ==>
        && shaders == map[]
        && version == old(version) && inputs == old(inputs) && outputs == old(outputs)
    {
      shaders := map[];
      var stream := new ByteStream(bytes);
      var h := ReadHeader(stream);
      if h.None? {
        return;
      }
      version := h.value.version;
      var newInputs := ReadAttributes(stream, h.value.inputs);
      inputs := inputs + newInputs;
      var newOutputs := ReadAttributes(stream, h.value.outputs);
      outputs := outputs + newOutputs;
      ghost var list := ReadShaders(stream, h.value.shaders);
    }

    /** Reads the shaders into the map. */
    method ReadShaders(stream: ByteStream, count: nat) returns (ghost list: seq<Shader>)
      requires stream.Valid() && shaders == map[]
      modifies this`shaders, stream
      ensures stream.Valid() && ReadsMany(old(stream.Unread()), ParseShader, count, list, stream.Unread())
      ensures shaders == ByStage(list)
    {
      list := [];
      ReadsNone(stream.Unread(), ParseShader);
      for it := 0 to count
        invariant stream.Valid()
        invariant ReadsMany(old(stream.Unread()), ParseShader, it, list, stream.Unread())
        invariant shaders == ByStage(list)
      {
        ghost var mid := stream.Unread();
        var shader := ReadShader(stream);
        ReadsOneMore(old(stream.Unread()), ParseShader, it, list, mid, shader, stream.Unread());
        InsertShader(shader, list);
        list := list + [shader];
      }
    }

    /** Enters one more shader. */
    method InsertShader(shader: Shader, ghost list: seq<Shader>)
      requires shaders == ByStage(list)
      modifies this`shaders
      ensures shaders == ByStage(list + [shader])
    {
      ByStageAppend(list, shader);
      if shader.stage !in shaders {
        shaders := shaders[shader.stage := shader];
      }
    }
  }

  /** Loading what was written: for every file with one shader per stage and any suffix, the
      loader gives back exactly that file. */
  method LoadEncoding(file: NyxFile, bytes: seq<byte>, ghost f: File, ghost suffix: seq<byte>)
    requires FileOk(f) && bytes == Encode(f) + suffix
    requires forall i, j | 0 <= i < j < |f.shaders| :: f.shaders[i].stage != f.shaders[j].stage
    requires file.inputs == [] && file.outputs == []
    modifies file
    ensures file.version == f.version && file.inputs == f.inputs && file.outputs == f.outputs
    ensures file.shaders.Keys == set i | 0 <= i < |f.shaders| :: f.shaders[i].stage
    ensures forall i | 0 <= i < |f.shaders| ::
      f.shaders[i].stage in file.shaders && file.shaders[f.shaders[i].stage] == f.shaders[i]
  {
    FileEncoded(f, suffix);
    file.Load(bytes);
    DistinctStages(f.shaders);
    assert [] + f.inputs == f.inputs && [] + f.outputs == f.outputs;
  }

  /** With one shader per stage the map is the list. */
  lemma {:induction false} DistinctStages(shaders: seq<Shader>)
    requires forall i, j | 0 <= i < j < |shaders| :: shaders[i].stage != shaders[j].stage
    ensures ByStage(shaders).Keys == set i | 0 <= i < |shaders| :: shaders[i].stage
    ensures forall i | 0 <= i < |shaders| ::
      shaders[i].stage in ByStage(shaders) && ByStage(shaders)[shaders[i].stage] == shaders[i]
  {
    forall i | 0 <= i < |shaders|
      ensures shaders[i].stage in ByStage(shaders) && ByStage(shaders)[shaders[i].stage] == shaders[i]
    {
      FirstPerStage(shaders, i);
    }
    forall stage | stage in ByStage(shaders) ensures exists i :: 0 <= i < |shaders| && shaders[i].stage == stage {
      OnlyFileStages(shaders, stage);
    }
  }

  /** The magic number and the counts; nothing when the magic number is wrong. */
  method ReadHeader(stream: ByteStream) returns (h: Option<Header>)
    requires stream.Valid() && stream.Unread().Some?
    modifies stream
    ensures stream.Valid()
    ensures var b := old(stream.Unread()).value;
      && (ParseHeader(b).Ok? ==> h == Some(ParseHeader(b).value) && stream.Unread() == Some(ParseHeader(b).rest))
      && (ParseMagic(b).Ok? && ParseMagic(b).value != MAGIC ==> h.None?)
  {
    var magic := stream.ReadMagic();
    if magic != MAGIC {
      return None;
    }
    var version := stream.ReadUnsigned();
    var numShaders := stream.ReadUnsigned();
    var numInputs := stream.ReadUnsigned();
    var numOutputs := stream.ReadUnsigned();
    h := Some(Header(version, numShaders, numInputs, numOutputs));
  }

  method ReadAttribute(stream: ByteStream) returns (a: Attribute)
    requires stream.Valid()
    modifies stream
    ensures stream.Valid() && Reads(old(stream.Unread()), ParseAttribute, a, stream.Unread())
  {
    var name := stream.ReadString();
    var typeName := stream.ReadString();
    var size := stream.ReadUnsigned();
    var location := stream.ReadUnsigned();
    a := Attribute(name, typeName, size, location);
  }

  method ReadAttributes(stream: ByteStream, count: nat) returns (list: seq<Attribute>)
    requires stream.Valid()
    modifies stream
    ensures stream.Valid() && ReadsMany(old(stream.Unread()), ParseAttribute, count, list, stream.Unread())
  {
    list := [];
    ReadsNone(stream.Unread(), ParseAttribute);
    for index := 0 to count
      invariant stream.Valid()
      invariant ReadsMany(old(stream.Unread()), ParseAttribute, index, list, stream.Unread())
    {
      ghost var mid := stream.Unread();
      var a := ReadAttribute(stream);
      ReadsOneMore(old(stream.Unread()), ParseAttribute, index, list, mid, a, stream.Unread());
      list := list + [a];
    }
  }

  method ReadUniform(stream: ByteStream) returns (u: Uniform)
    requires stream.Valid()
    modifies stream
    ensures stream.Valid() && Reads(old(stream.Unread()), ParseUniform, u, stream.Unread())
  {
    var name := stream.ReadString();
    var kind := stream.ReadUnsigned();
    var binding := stream.ReadUnsigned();
    var size := stream.ReadUnsigned();
    u := Uniform(name, kind, binding, size);
  }

  /** The code words of a shader. */
  method ReadSpirv(stream: ByteStream, size: nat) returns (words: seq<u32>)
    requires stream.Valid()
    modifies stream
    ensures stream.Valid() && ReadsMany(old(stream.Unread()), ParseWord, size, words, stream.Unread())
  {
    words := [];
    ReadsNone(stream.Unread(), ParseWord);
    for index := 0 to size
      invariant stream.Valid()
      invariant ReadsMany(old(stream.Unread()), ParseWord, index, words, stream.Unread())
    {
      ghost var mid := stream.Unread();
      var w := stream.ReadUnsigned();
      ReadsOneMore(old(stream.Unread()), ParseWord, index, words, mid, w, stream.Unread());
      words := words + [w];
    }
  }

  method ReadUniforms(stream: ByteStream, count: nat) returns (uniforms: seq<Uniform>)
    requires stream.Valid()
    modifies stream
    ensures stream.Valid() && ReadsMany(old(stream.Unread()), ParseUniform, count, uniforms, stream.Unread())
  {
    uniforms := [];
    ReadsNone(stream.Unread(), ParseUniform);
    for index := 0 to count
      invariant stream.Valid()
      invariant ReadsMany(old(stream.Unread()), ParseUniform, index, uniforms, stream.Unread())
    {
      ghost var mid := stream.Unread();
      var u := ReadUniform(stream);
      ReadsOneMore(old(stream.Unread()), ParseUniform, index, uniforms, mid, u, stream.Unread());
      uniforms := uniforms + [u];
    }
  }

  method ReadShader(stream: ByteStream) returns (s: Shader)
    requires stream.Valid()
    modifies stream
    ensures stream.Valid() && Reads(old(stream.Unread()), ParseShader, s, stream.Unread())
  {
    var spirvSize := stream.ReadUnsigned();
    var spirv := ReadSpirv(stream, spirvSize);
    var stage := stream.ReadUnsigned();
    var numUniforms := stream.ReadUnsigned();
    var uniforms := ReadUniforms(stream, numUniforms);
    s := Shader(spirv, stage, uniforms);
  }
}
