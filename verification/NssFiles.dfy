/** The `.nss` skeleton file: its layout, its parser, the loader, and the links between
    bones.  Floating-point numbers stay the decimal strings they are stored as. */
module NssFiles {
  import opened Codec
  import opened Streams

  const MAGIC: nat := 0x29657d692b450a

  type Text = seq<byte>

  /** A bone as stored: sixteen matrix entries and the names of its children. */
  datatype StoredBone = StoredBone(name: Text, transform: seq<Text>, children: seq<Text>)

  datatype Transform = Transform(time: Text, position: seq<Text>, scale: seq<Text>, rotation: seq<Text>)

  datatype Node = Node(name: Text, transforms: seq<Transform>)

  datatype Animation = Animation(name: Text, duration: Text, fps: Text, nodes: seq<Node>)

  /** A skeleton of version 1. */
  datatype Skeleton = Skeleton(root: u32, bones: seq<StoredBone>, animations: seq<Animation>)

  // ---------------------------------------------------------------- layout

  function EncodeTexts(ts: seq<Text>): seq<byte> {
    EncodeMany(EncodeString, ts)
  }

  function EncodeBone(b: StoredBone): seq<byte> {
    EncodeString(b.name) + (EncodeTexts(b.transform) + EncodeList(EncodeString, b.children))
  }

  function EncodeTransform(t: Transform): seq<byte> {
    EncodeString(t.time) + (EncodeTexts(t.position) + (EncodeTexts(t.scale) + EncodeTexts(t.rotation)))
  }

  function EncodeNode(n: Node): seq<byte> {
    EncodeString(n.name) + EncodeList(EncodeTransform, n.transforms)
  }

  function EncodeAnimation(a: Animation): seq<byte> {
    EncodeString(a.name) + (EncodeString(a.duration) + (EncodeString(a.fps) + EncodeList(EncodeNode, a.nodes)))
  }

  function EncodeHeader(s: Skeleton): seq<byte> {
    EncodeMagic(MAGIC) + (EncodeWord(1) +
      (EncodeWord(s.root) + (EncodeWord(|s.bones|) + EncodeWord(|s.animations|))))
  }

  function Encode(s: Skeleton): seq<byte> {
    EncodeHeader(s) + (EncodeMany(EncodeBone, s.bones) + EncodeMany(EncodeAnimation, s.animations))
  }

  // ---------------------------------------------------------------- parsers

  function ParseVec4(b: seq<byte>): Parsed<seq<Text>> {
    ParseMany(ParseString, 4, b)
  }

  function ParseMat4(b: seq<byte>): Parsed<seq<Text>> {
    ParseMany(ParseString, 16, b)
  }

  function ParseBone(b: seq<byte>): Parsed<StoredBone> {
    var (name, b) :- ParseString(b);
    var (transform, b) :- ParseMat4(b);
    var (children, b) :- ParseList(ParseString, b);
    Ok(StoredBone(name, transform, children), b)
  }

  function ParseTransform(b: seq<byte>): Parsed<Transform> {
    var (time, b) :- ParseString(b);
    var (position, b) :- ParseVec4(b);
    var (scale, b) :- ParseVec4(b);
    var (rotation, b) :- ParseVec4(b);
    Ok(Transform(time, position, scale, rotation), b)
  }

  function ParseNode(b: seq<byte>): Parsed<Node> {
    var (name, b) :- ParseString(b);
    var (transforms, b) :- ParseList(ParseTransform, b);
    Ok(Node(name, transforms), b)
  }

  function ParseAnimation(b: seq<byte>): Parsed<Animation> {
    var (name, b) :- ParseString(b);
    var (duration, b) :- ParseString(b);
    var (fps, b) :- ParseString(b);
    var (nodes, b) :- ParseList(ParseNode, b);
    Ok(Animation(name, duration, fps, nodes), b)
  }

  datatype Header = Header(root: u32, bones: u32, animations: u32)

  function ParseHeader(b: seq<byte>): Parsed<Header> {
    var (magic, b) :- ParseMagic(b);
    if magic != MAGIC then Fail
    else
      var (version, b) :- ParseWord(b);
      if version != 1 then Fail else ParseCounts(b)
  }

  function ParseCounts(b: seq<byte>): Parsed<Header> {
    var (root, b) :- ParseWord(b);
    var (bones, b) :- ParseWord(b);
    var (animations, b) :- ParseWord(b);
    Ok(Header(root, bones, animations), b)
  }

  function ParseBody(h: Header, b: seq<byte>): Parsed<Skeleton> {
    var (bones, b) :- ParseMany(ParseBone, h.bones, b);
    var (animations, b) :- ParseMany(ParseAnimation, h.animations, b);
    Ok(Skeleton(h.root, bones, animations), b)
  }

  function Parse(b: seq<byte>): Parsed<Skeleton> {
    var (h, b) :- ParseHeader(b);
    ParseBody(h, b)
  }

  /** The bytes of a file: eight of magic, the version, which is 1, the root, and the numbers of
      bones and animations. */
  lemma {:induction false} HeaderRead(b: seq<byte>)
    requires ParseHeader(b).Ok?
    ensures |b| >= 24 && b[..8] == [0x0a, 0x45, 0x2b, 0x69, 0x7d, 0x65, 0x29, 0] && WordAt(b, 8) == 1
    ensures ParseHeader(b) == Ok(Header(WordAt(b, 12), WordAt(b, 16), WordAt(b, 20)), b[24..])
  {
    BytesOfValue(b[..8]);
    MagicBytes();
    WordReadAt(b, 8);
    WordReadAt(b, 12);
    WordReadAt(b, 16);
    WordReadAt(b, 20);
  }

  /** A transform is thirteen strings: the time, and four each of position, scale and rotation. */
  lemma {:induction false} TransformRead(b: seq<byte>)
    requires ParseTransform(b).Ok?
    ensures ParseMany(ParseString, 13, b).Ok? && ParseTransform(b).rest == ParseMany(ParseString, 13, b).rest
    ensures var texts := ParseMany(ParseString, 13, b).value;
      ParseTransform(b).value == Transform(texts[0], texts[1..5], texts[5..9], texts[9..13])
  {
    ManyOne(ParseString, b);
    ManySplit(ParseString, 1, 4, b);
    ManySplit(ParseString, 5, 4, b);
    ManySplit(ParseString, 9, 4, b);
    var t := ParseTransform(b).value;
    assert ParseMany(ParseString, 13, b).value == (([t.time] + t.position) + t.scale) + t.rotation;
    FourParts(t.time, t.position, t.scale, t.rotation);
  }

  lemma {:induction false} FourParts(time: Text, p: seq<Text>, s: seq<Text>, r: seq<Text>)
    requires |p| == |s| == |r| == 4
    ensures var all := (([time] + p) + s) + r;
      all[0] == time && all[1..5] == p && all[5..9] == s && all[9..13] == r
  {
  }

  /** A bone begins with seventeen strings: its name and the sixteen entries of its matrix.  Then
      come the number of its children and their names. */
  lemma {:induction false} BoneRead(b: seq<byte>)
    requires ParseBone(b).Ok?
    ensures ParseMany(ParseString, 17, b).Ok?
    ensures var texts, rest := ParseMany(ParseString, 17, b).value, ParseMany(ParseString, 17, b).rest;
      && ParseBone(b).value.name == texts[0] && ParseBone(b).value.transform == texts[1..]
      && |rest| >= 4 && |ParseBone(b).value.children| == WordAt(rest, 0)
      && ParseMany(ParseString, WordAt(rest, 0), rest[4..]) == Ok(ParseBone(b).value.children, ParseBone(b).rest)
  {
    ManyOne(ParseString, b);
    ManySplit(ParseString, 1, 16, b);
    WordRead(ParseMany(ParseString, 17, b).rest);
  }

  /** An animation begins with three strings: its name, its duration and its frame rate. */
  lemma {:induction false} AnimationRead(b: seq<byte>)
    requires ParseAnimation(b).Ok?
    ensures ParseMany(ParseString, 3, b).Ok?
    ensures var texts, a := ParseMany(ParseString, 3, b).value, ParseAnimation(b).value;
      a.name == texts[0] && a.duration == texts[1] && a.fps == texts[2]
  {
    ManyOne(ParseString, b);
    var b1 := ParseString(b).rest;
    ManyOne(ParseString, b1);
    ManySplit(ParseString, 1, 1, b);
    ManyOne(ParseString, ParseString(b1).rest);
    ManySplit(ParseString, 2, 1, b);
  }

  lemma {:induction false} MagicBytes()
    ensures EncodeMagic(MAGIC) == [0x0a, 0x45, 0x2b, 0x69, 0x7d, 0x65, 0x29, 0]
  {
    MagicOf([0x0a, 0x45, 0x2b, 0x69, 0x7d, 0x65, 0x29, 0], MAGIC);
  }

  // ---------------------------------------------------------------- round trip

  ghost predicate TextsOk(ts: seq<Text>) {
    AllValid((t: Text) => Sized(t), ts)
  }

  ghost predicate BoneOk(b: StoredBone) {
    Sized(b.name) && |b.transform| == 16 && TextsOk(b.transform) && Sized(b.children) && TextsOk(b.children)
  }

  ghost predicate TransformOk(t: Transform) {
    && Sized(t.time) && |t.position| == |t.scale| == |t.rotation| == 4
    && TextsOk(t.position) && TextsOk(t.scale) && TextsOk(t.rotation)
  }

  ghost predicate NodeOk(n: Node) {
    Sized(n.name) && Sized(n.transforms) && AllValid(TransformOk, n.transforms)
  }

  ghost predicate AnimationOk(a: Animation) {
    Sized(a.name) && Sized(a.duration) && Sized(a.fps) && Sized(a.nodes) && AllValid(NodeOk, a.nodes)
  }

  ghost predicate SkeletonOk(s: Skeleton) {
    && Sized(s.bones) && Sized(s.animations)
    && AllValid(BoneOk, s.bones) && AllValid(AnimationOk, s.animations)
  }

  lemma {:induction false} TextsEncoded(ts: seq<Text>, rest: seq<byte>)
    requires TextsOk(ts)
    ensures ParseMany(ParseString, |ts|, EncodeTexts(ts) + rest) == Ok(ts, rest)
  {
    StringsInverse();
    ManyEncoded(ParseString, EncodeString, (t: Text) => Sized(t), ts, rest);
  }

  lemma {:induction false} TextsParsed(n: nat, b: seq<byte>)
    requires ParseMany(ParseString, n, b).Ok?
    ensures TextsOk(ParseMany(ParseString, n, b).value)
    ensures b == EncodeTexts(ParseMany(ParseString, n, b).value) + ParseMany(ParseString, n, b).rest
  {
    StringsInverse();
    ManyParsed(ParseString, EncodeString, (t: Text) => Sized(t), n, b);
  }

  lemma {:induction false} BoneEncoded(x: StoredBone, rest: seq<byte>)
    requires BoneOk(x)
    ensures ParseBone(EncodeBone(x) + rest) == Ok(x, rest)
  {
    var t, c := EncodeTexts(x.transform), EncodeList(EncodeString, x.children);
    Regroup3(EncodeString(x.name), t, c, rest);
    StringEncoded(x.name, t + (c + rest));
    TextsEncoded(x.transform, c + rest);
    StringsInverse();
    ListEncoded(ParseString, EncodeString, (t: Text) => Sized(t), x.children, rest);
  }

  lemma {:induction false} BoneParsed(b: seq<byte>)
    requires ParseBone(b).Ok?
    ensures BoneOk(ParseBone(b).value)
    ensures b == EncodeBone(ParseBone(b).value) + ParseBone(b).rest
  {
    StringParsed(b);
    var b1 := ParseString(b).rest;
    TextsParsed(16, b1);
    StringsInverse();
    ListParsed(ParseString, EncodeString, (t: Text) => Sized(t), ParseMat4(b1).rest);
    var x := ParseBone(b);
    Regroup3(EncodeString(x.value.name), EncodeTexts(x.value.transform), EncodeList(EncodeString, x.value.children), x.rest);
  }

  lemma {:induction false} BonesInverse()
    ensures Inverse(ParseBone, EncodeBone, BoneOk)
  {
    forall x, rest | BoneOk(x) ensures ParseBone(EncodeBone(x) + rest) == Ok(x, rest) {
      BoneEncoded(x, rest);
    }
    forall b | ParseBone(b).Ok?
      ensures Written(EncodeBone, BoneOk, b, ParseBone(b).value, ParseBone(b).rest)
    {
      BoneParsed(b);
    }
  }

  lemma {:induction false} TransformEncoded(x: Transform, rest: seq<byte>)
    requires TransformOk(x)
    ensures ParseTransform(EncodeTransform(x) + rest) == Ok(x, rest)
  {
    var p, s, r := EncodeTexts(x.position), EncodeTexts(x.scale), EncodeTexts(x.rotation);
    Regroup4(EncodeString(x.time), p, s, r, rest);
    StringEncoded(x.time, p + (s + (r + rest)));
    TextsEncoded(x.position, s + (r + rest));
    TextsEncoded(x.scale, r + rest);
    TextsEncoded(x.rotation, rest);
  }

  lemma {:induction false} TransformParsed(b: seq<byte>)
    requires ParseTransform(b).Ok?
    ensures TransformOk(ParseTransform(b).value)
    ensures b == EncodeTransform(ParseTransform(b).value) + ParseTransform(b).rest
  {
    StringParsed(b);
    var b1 := ParseString(b).rest;
    TextsParsed(4, b1);
    var b2 := ParseVec4(b1).rest;
    TextsParsed(4, b2);
    TextsParsed(4, ParseVec4(b2).rest);
    var x := ParseTransform(b);
    Regroup4(EncodeString(x.value.time), EncodeTexts(x.value.position), EncodeTexts(x.value.scale),
             EncodeTexts(x.value.rotation), x.rest);
  }

  lemma {:induction false} TransformsInverse()
    ensures Inverse(ParseTransform, EncodeTransform, TransformOk)
  {
    forall x, rest | TransformOk(x) ensures ParseTransform(EncodeTransform(x) + rest) == Ok(x, rest) {
      TransformEncoded(x, rest);
    }
    forall b | ParseTransform(b).Ok?
      ensures Written(EncodeTransform, TransformOk, b, ParseTransform(b).value, ParseTransform(b).rest)
    {
      TransformParsed(b);
    }
  }

  lemma {:induction false} NodesInverse()
    ensures Inverse(ParseNode, EncodeNode, NodeOk)
  {
    TransformsInverse();
    forall x, rest | NodeOk(x) ensures ParseNode(EncodeNode(x) + rest) == Ok(x, rest) {
      var t := EncodeList(EncodeTransform, x.transforms);
      Associative(EncodeString(x.name), t, rest);
      StringEncoded(x.name, t + rest);
      ListEncoded(ParseTransform, EncodeTransform, TransformOk, x.transforms, rest);
    }
    forall b | ParseNode(b).Ok?
      ensures Written(EncodeNode, NodeOk, b, ParseNode(b).value, ParseNode(b).rest)
    {
      StringParsed(b);
      var x := ParseNode(b);
      ListParsed(ParseTransform, EncodeTransform, TransformOk, ParseString(b).rest);
      Associative(EncodeString(x.value.name), EncodeList(EncodeTransform, x.value.transforms), x.rest);
    }
  }

  lemma {:induction false} AnimationEncoded(x: Animation, rest: seq<byte>)
    requires AnimationOk(x)
    ensures ParseAnimation(EncodeAnimation(x) + rest) == Ok(x, rest)
  {
    var d, f, n := EncodeString(x.duration), EncodeString(x.fps), EncodeList(EncodeNode, x.nodes);
    Regroup4(EncodeString(x.name), d, f, n, rest);
    StringEncoded(x.name, d + (f + (n + rest)));
    StringEncoded(x.duration, f + (n + rest));
    StringEncoded(x.fps, n + rest);
    NodesInverse();
    ListEncoded(ParseNode, EncodeNode, NodeOk, x.nodes, rest);
  }

  lemma {:induction false} AnimationParsed(b: seq<byte>)
    requires ParseAnimation(b).Ok?
    ensures AnimationOk(ParseAnimation(b).value)
    ensures b == EncodeAnimation(ParseAnimation(b).value) + ParseAnimation(b).rest
  {
    StringParsed(b);
    var b1 := ParseString(b).rest;
    StringParsed(b1);
    var b2 := ParseString(b1).rest;
    StringParsed(b2);
    NodesInverse();
    ListParsed(ParseNode, EncodeNode, NodeOk, ParseString(b2).rest);
    var x := ParseAnimation(b);
    Regroup4(EncodeString(x.value.name), EncodeString(x.value.duration), EncodeString(x.value.fps),
             EncodeList(EncodeNode, x.value.nodes), x.rest);
  }

  lemma {:induction false} AnimationsInverse()
    ensures Inverse(ParseAnimation, EncodeAnimation, AnimationOk)
  {
    forall x, rest | AnimationOk(x) ensures ParseAnimation(EncodeAnimation(x) + rest) == Ok(x, rest) {
      AnimationEncoded(x, rest);
    }
    forall b | ParseAnimation(b).Ok?
      ensures Written(EncodeAnimation, AnimationOk, b, ParseAnimation(b).value, ParseAnimation(b).rest)
    {
      AnimationParsed(b);
    }
  }

  lemma {:induction false} HeaderEncoded(s: Skeleton, rest: seq<byte>)
    requires Sized(s.bones) && Sized(s.animations)
    ensures ParseHeader(EncodeHeader(s) + rest) == Ok(Header(s.root, |s.bones|, |s.animations|), rest)
  {
    var m, v, r := EncodeMagic(MAGIC), EncodeWord(1), EncodeWord(s.root);
    var b, a := EncodeWord(|s.bones|), EncodeWord(|s.animations|);
    Regroup5(m, v, r, b, a, rest);
    MagicEncoded(MAGIC, v + (r + (b + (a + rest))));
    WordEncoded(1, r + (b + (a + rest)));
    WordEncoded(s.root, b + (a + rest));
    WordEncoded(|s.bones|, a + rest);
    WordEncoded(|s.animations|, rest);
  }

  lemma {:induction false} HeaderParsed(b: seq<byte>, s: Skeleton)
    requires ParseHeader(b).Ok?
    requires var h := ParseHeader(b).value;
      h.root == s.root && h.bones == |s.bones| && h.animations == |s.animations|
    ensures b == EncodeHeader(s) + ParseHeader(b).rest
  {
    MagicParsed(b);
    var b1 := ParseMagic(b).rest;
    WordParsed(b1);
    var b2 := ParseWord(b1).rest;
    WordParsed(b2);
    var b3 := ParseWord(b2).rest;
    WordParsed(b3);
    WordParsed(ParseWord(b3).rest);
    Regroup5(EncodeMagic(MAGIC), EncodeWord(1), EncodeWord(s.root), EncodeWord(|s.bones|),
             EncodeWord(|s.animations|), ParseHeader(b).rest);
  }

  /** Every encoding of a skeleton is parsed back, with any suffix left alone. */
  lemma {:induction false} SkeletonEncoded(s: Skeleton, rest: seq<byte>)
    requires SkeletonOk(s)
    ensures Parse(Encode(s) + rest) == Ok(s, rest)
  {
    var b, a := EncodeMany(EncodeBone, s.bones), EncodeMany(EncodeAnimation, s.animations);
    Regroup3(EncodeHeader(s), b, a, rest);
    HeaderEncoded(s, b + (a + rest));
    BonesInverse();
    AnimationsInverse();
    ManyEncoded(ParseBone, EncodeBone, BoneOk, s.bones, a + rest);
    ManyEncoded(ParseAnimation, EncodeAnimation, AnimationOk, s.animations, rest);
  }

  lemma {:induction false} SkeletonParsed(b: seq<byte>)
    requires Parse(b).Ok?
    ensures SkeletonOk(Parse(b).value)
    ensures b == Encode(Parse(b).value) + Parse(b).rest
  {
    var h := ParseHeader(b);
    BonesInverse();
    AnimationsInverse();
    ManyParsed(ParseBone, EncodeBone, BoneOk, h.value.bones, h.rest);
    var bs := ParseMany(ParseBone, h.value.bones, h.rest);
    ManyParsed(ParseAnimation, EncodeAnimation, AnimationOk, h.value.animations, bs.rest);
    var s := Parse(b);
    HeaderParsed(b, s.value);
    var eb, ea := EncodeMany(EncodeBone, bs.value), EncodeMany(EncodeAnimation, s.value.animations);
    Associative(eb, ea, s.rest);
    Associative(EncodeHeader(s.value), eb + ea, s.rest);
  }

  /** The parser is the exact inverse of the layout. */
  lemma {:induction false} RoundTrip()
    ensures Inverse(Parse, Encode, SkeletonOk)
  {
    forall s, rest | SkeletonOk(s) ensures Parse(Encode(s) + rest) == Ok(s, rest) {
      SkeletonEncoded(s, rest);
    }
    forall b | Parse(b).Ok? ensures Written(Encode, SkeletonOk, b, Parse(b).value, Parse(b).rest) {
      SkeletonParsed(b);
    }
  }

  // ---------------------------------------------------------------- links

  class Bone {
    const name: Text
    const transform: seq<Text>
    var children: seq<Bone>
    var pending: seq<Text>   // names of children not yet looked up

    constructor (stored: StoredBone)
      ensures name == stored.name && transform == stored.transform
      ensures children == [] && pending == stored.children
    {
      name, transform := stored.name, stored.transform;
      children, pending := [], stored.children;
    }
  }

  /** All bones of a name, in the order of the list. */
  function Named(bones: seq<Bone>, name: Text): seq<Bone> {
    if bones == [] then []
    else
      var last := bones[|bones| - 1];
      Named(bones[..|bones| - 1], name) + (if last.name == name then [last] else [])
  }

  /** The bones of a list of names, one name after the other. */
  function Links(bones: seq<Bone>, names: seq<Text>): seq<Bone> {
    if names == [] then []
    else Links(bones, names[..|names| - 1]) + Named(bones, names[|names| - 1])
  }

  /** The matches of a name are exactly the bones that carry it. */
  lemma {:induction false} NamedExactly(bones: seq<Bone>, name: Text, b: Bone)
    ensures b in Named(bones, name) <==> b in bones && b.name == name
    ensures multiset(Named(bones, name))[b] == if b.name == name then multiset(bones)[b] else 0
  {
    if bones != [] {
      var front, last := bones[..|bones| - 1], bones[|bones| - 1];
      NamedExactly(front, name, b);
      assert bones == front + [last];
    }
  }

  /** Where the bones of a name stand in the list. */
  function Positions(bones: seq<Bone>, name: Text): (r: seq<nat>)
    ensures forall k | 0 <= k < |r| :: r[k] < |bones|
    ensures forall k, l | 0 <= k < l < |r| :: r[k] < r[l]
  {
    if bones == [] then []
    else
      var n := |bones| - 1;
      Positions(bones[..n], name) + (if bones[n].name == name then [n] else [])
  }

  /** Matches stand in the order of the bone list, and none is left out. */
  lemma {:induction false} NamedInOrder(bones: seq<Bone>, name: Text)
    ensures |Positions(bones, name)| == |Named(bones, name)|
    ensures forall k | 0 <= k < |Named(bones, name)| ::
              Named(bones, name)[k] == bones[Positions(bones, name)[k]] && Named(bones, name)[k].name == name
  {
    if bones != [] {
      NamedInOrder(bones[..|bones| - 1], name);
    }
  }

  lemma {:induction false} PositionsComplete(bones: seq<Bone>, name: Text, i: nat)
    requires i < |bones| && bones[i].name == name
    ensures i in Positions(bones, name)
  {
    if i < |bones| - 1 {
      PositionsComplete(bones[..|bones| - 1], name, i);
    }
  }

  /** Name number `name` is carried by bone number `bone`. */
  datatype Match = Match(name: nat, bone: nat)

  /** Name after name, and in the order of the bones. */
  predicate Precedes(p: Match, q: Match) {
    p.name < q.name || (p.name == q.name && p.bone < q.bone)
  }

  ghost predicate Ordered(p: seq<Match>) {
    forall m, n | 0 <= m < n < |p| :: Precedes(p[m], p[n])
  }

  /** `matches` lists, in order and once each, all names with all bones that carry them. */
  ghost predicate AllMatches(bones: seq<Bone>, names: seq<Text>, matches: seq<Match>) {
    && Ordered(matches)
    && (forall p :: p in matches <==>
          p.name < |names| && p.bone < |bones| && bones[p.bone].name == names[p.name])
  }

  /** Child m is the bone of match m. */
  ghost predicate TakenFrom(children: seq<Bone>, bones: seq<Bone>, matches: seq<Match>) {
    && |children| == |matches|
    && forall m | 0 <= m < |matches| :: matches[m].bone < |bones| && children[m] == bones[matches[m].bone]
  }

  /** The children are all bones of all names, name after name and in the order of the bones. */
  ghost predicate Resolved(children: seq<Bone>, bones: seq<Bone>, names: seq<Text>) {
    exists matches :: AllMatches(bones, names, matches) && TakenFrom(children, bones, matches)
  }

  /** All links of a list of names, whether or not names repeat or dangle. */
  lemma {:induction false} LinksResolved(bones: seq<Bone>, names: seq<Text>)
    ensures Resolved(Links(bones, names), bones, names)
  {
    var matches := Matches(bones, names);
    MatchesAll(bones, names);
    MatchesTaken(bones, names);
  }

  function Matches(bones: seq<Bone>, names: seq<Text>): seq<Match> {
    if names == [] then []
    else
      var n := |names| - 1;
      Matches(bones, names[..n]) + MatchesOf(n, Positions(bones, names[n]))
  }

  function MatchesOf(name: nat, at: seq<nat>): (r: seq<Match>)
    ensures |r| == |at| && forall m | 0 <= m < |at| :: r[m] == Match(name, at[m])
  {
    seq(|at|, m requires 0 <= m < |at| => Match(name, at[m]))
  }

  lemma {:induction false} MatchesTaken(bones: seq<Bone>, names: seq<Text>)
    ensures TakenFrom(Links(bones, names), bones, Matches(bones, names))
  {
    if names != [] {
      MatchesTaken(bones, names[..|names| - 1]);
      NamedInOrder(bones, names[|names| - 1]);
    }
  }

  lemma {:induction false} MatchesAll(bones: seq<Bone>, names: seq<Text>)
    ensures AllMatches(bones, names, Matches(bones, names))
  {
    if names != [] {
      var n := |names| - 1;
      MatchesAll(bones, names[..n]);
      forall p ensures p in Matches(bones, names) <==>
          p.name < |names| && p.bone < |bones| && bones[p.bone].name == names[p.name]
      {
        MatchIn(bones, names, p);
      }
    }
  }

  lemma {:induction false} MatchIn(bones: seq<Bone>, names: seq<Text>, p: Match)
    requires names != [] && AllMatches(bones, names[..|names| - 1], Matches(bones, names[..|names| - 1]))
    ensures p in Matches(bones, names) <==>
      p.name < |names| && p.bone < |bones| && bones[p.bone].name == names[p.name]
  {
    var n := |names| - 1;
    var at := Positions(bones, names[n]);
    NamedInOrder(bones, names[n]);
    var back := MatchesOf(n, at);
    assert p in Matches(bones, names) <==> p in Matches(bones, names[..n]) || p in back;
    if p.name == n && p.bone < |bones| && bones[p.bone].name == names[n] {
      PositionsComplete(bones, names[n], p.bone);
      var m :| 0 <= m < |at| && at[m] == p.bone;
      assert back[m] == p;
    }
  }

  /** Nothing else is resolved for these names. */
  lemma {:induction false} ResolvedOnce(a: seq<Bone>, b: seq<Bone>, bones: seq<Bone>, names: seq<Text>)
    requires Resolved(a, bones, names) && Resolved(b, bones, names)
    ensures a == b
  {
    var p :| AllMatches(bones, names, p) && TakenFrom(a, bones, p);
    var q :| AllMatches(bones, names, q) && TakenFrom(b, bones, q);
    SameMatches(p, q);
    TakenOnce(a, b, bones, p);
  }

  lemma {:induction false} TakenOnce(a: seq<Bone>, b: seq<Bone>, bones: seq<Bone>, matches: seq<Match>)
    requires TakenFrom(a, bones, matches) && TakenFrom(b, bones, matches)
    ensures a == b
  {
  }

  lemma {:induction false} SameMatches(p: seq<Match>, q: seq<Match>)
    requires Ordered(p) && Ordered(q)
    requires forall x :: x in p <==> x in q
    ensures p == q
  {
    SameOrder(p, q, |p|);
    SameOrder(q, p, |q|);
    assert p[..|p|] == p && q[..|q|] == q;
  }

  /** Two ordered lists of the same matches are equal, position by position. */
  lemma {:induction false} SameOrder(p: seq<Match>, q: seq<Match>, m: nat)
    requires Ordered(p) && Ordered(q) && m <= |p|
    requires forall x :: x in p <==> x in q
    ensures m <= |q| && p[..m] == q[..m]
  {
    if m > 0 {
      var n := m - 1;
      SameOrder(p, q, n);
      var k := Place(p, q, n);
      var l := Place(q, p, n);
      assert k > n ==> Precedes(q[n], p[n]);
      assert l > n ==> Precedes(p[n], q[n]);
      assert p[n] == q[n];
      assert p[..m] == p[..n] + [p[n]] && q[..m] == q[..n] + [q[n]];
    }
  }

  /** What follows a common prefix of one list does not stand in that prefix of the other. */
  lemma {:induction false} Place(p: seq<Match>, q: seq<Match>, n: nat) returns (k: nat)
    requires Ordered(p) && n < |p| && n <= |q| && p[..n] == q[..n] && p[n] in q
    ensures n <= k < |q| && q[k] == p[n]
  {
    k :| k < |q| && q[k] == p[n];
    forall i | 0 <= i < n ensures q[i] != p[n] {
      assert p[..n][i] == q[..n][i];
    }
  }

  /** Two bones of one name are both children. */
  lemma {:induction false} BothBonesLinked(x: Bone, y: Bone)
    requires x.name == y.name
    ensures Links([x, y], [x.name]) == [x, y]
  {
    assert [x, y][..1] == [x] && [x][..0] == [] && [x.name][..0] == [];
    assert Named([x], x.name) == [x];
    assert Links([x, y], []) == [];
  }

  ghost predicate UniqueNames(bones: seq<Bone>) {
    forall i, j | 0 <= i < j < |bones| :: bones[i].name != bones[j].name
  }

  predicate Present(bones: seq<Bone>, name: Text) {
    exists i :: 0 <= i < |bones| && bones[i].name == name
  }

  lemma {:induction false} NoPositions(bones: seq<Bone>, name: Text)
    requires forall i | 0 <= i < |bones| :: bones[i].name != name
    ensures Positions(bones, name) == []
  {
    if bones != [] {
      NoPositions(bones[..|bones| - 1], name);
    }
  }

  lemma {:induction false} PositionsUnique(bones: seq<Bone>, name: Text)
    requires UniqueNames(bones)
    ensures |Positions(bones, name)| <= 1
  {
    if bones != [] {
      var n := |bones| - 1;
      PositionsUnique(bones[..n], name);
      if bones[n].name == name {
        NoPositions(bones[..n], name);
      }
    }
  }

  /** A name has a match if and only if it is present. */
  lemma {:induction false} PositionsPresent(bones: seq<Bone>, name: Text)
    ensures Positions(bones, name) != [] <==> Present(bones, name)
  {
    if Present(bones, name) {
      var i :| 0 <= i < |bones| && bones[i].name == name;
      PositionsComplete(bones, name, i);
    } else {
      NoPositions(bones, name);
    }
  }

  /** With unique names, a name has one match if it is present and none otherwise. */
  lemma {:induction false} NamedUnique(bones: seq<Bone>, name: Text)
    requires UniqueNames(bones)
    ensures |Named(bones, name)| == if Present(bones, name) then 1 else 0
    ensures Present(bones, name) ==> Named(bones, name)[0] in bones && Named(bones, name)[0].name == name
  {
    NamedInOrder(bones, name);
    PositionsUnique(bones, name);
    PositionsPresent(bones, name);
  }

  predicate AllPresent(bones: seq<Bone>, names: seq<Text>) {
    forall k | 0 <= k < |names| :: Present(bones, names[k])
  }

  lemma {:induction false} AllPresentSplit(bones: seq<Bone>, front: seq<Text>, last: Text)
    ensures AllPresent(bones, front + [last]) <==> AllPresent(bones, front) && Present(bones, last)
  {
    var names := front + [last];
    if AllPresent(bones, names) {
      assert Present(bones, names[|front|]);
      forall k | 0 <= k < |front| ensures Present(bones, front[k]) {
        assert Present(bones, names[k]);
      }
    }
  }

  /** With unique names, a bone gets one child per name if and only if no name dangles. */
  lemma {:induction false} LinksCount(bones: seq<Bone>, names: seq<Text>)
    requires UniqueNames(bones)
    ensures |Links(bones, names)| <= |names|
    ensures |Links(bones, names)| == |names| <==> AllPresent(bones, names)
  {
    if names != [] {
      var front, last := names[..|names| - 1], names[|names| - 1];
      assert names == front + [last];
      LinksCount(bones, front);
      NamedUnique(bones, last);
      AllPresentSplit(bones, front, last);
    }
  }

  /** Then child k is the bone with the k-th name. */
  lemma {:induction false} LinksUnique(bones: seq<Bone>, names: seq<Text>, k: nat)
    requires UniqueNames(bones) && AllPresent(bones, names) && k < |names|
    ensures |Links(bones, names)| == |names|
    ensures Links(bones, names)[k] in bones && Links(bones, names)[k].name == names[k]
  {
    var front, last := names[..|names| - 1], names[|names| - 1];
    assert names == front + [last];
    AllPresentSplit(bones, front, last);
    LinksCount(bones, names);
    LinksCount(bones, front);
    NamedUnique(bones, last);
    if k < |front| {
      LinksUnique(bones, front, k);
    }
  }

  /** Looks up every pending name in the list of all bones: every bone of every name becomes
      a child, name after name and in the order of the list. */
  method FindBones(bones: seq<Bone>)
    requires forall i, j | 0 <= i < j < |bones| :: bones[i] != bones[j]
    modifies bones
    ensures forall i | 0 <= i < |bones| ::
      bones[i].children == old(bones[i].children) + Links(bones, old(bones[i].pending)) && bones[i].pending == []
    ensures forall i | 0 <= i < |bones| ::
      && |old(bones[i].children)| <= |bones[i].children|
      && bones[i].children[..|old(bones[i].children)|] == old(bones[i].children)
      && Resolved(bones[i].children[|old(bones[i].children)|..], bones, old(bones[i].pending))
  {
    for i := 0 to |bones|
      invariant forall k | 0 <= k < i ::
        bones[k].children == old(bones[k].children) + Links(bones, old(bones[k].pending)) && bones[k].pending == []
      invariant forall k | i <= k < |bones| ::
        bones[k].children == old(bones[k].children) && bones[k].pending == old(bones[k].pending)
    {
      LinkBone(bones, i);
      bones[i].pending := [];
    }
    forall i | 0 <= i < |bones|
      ensures Resolved(bones[i].children[|old(bones[i].children)|..], bones, old(bones[i].pending))
    {
      LinksResolved(bones, old(bones[i].pending));
      assert bones[i].children[|old(bones[i].children)|..] == Links(bones, old(bones[i].pending));
    }
  }

  /** The two inner loops: the children of one bone. */
  method LinkBone(bones: seq<Bone>, i: nat)
    requires i < |bones|
    modifies bones[i]
    ensures bones[i].children == old(bones[i].children) + Links(bones, old(bones[i].pending))
  {
    var bone := bones[i];
    var names := bone.pending;
    for c := 0 to |names|
      invariant bone.children == old(bone.children) + Links(bones, names[..c])
    {
      ghost var before := bone.children;
      for j := 0 to |bones|
        invariant bone.children == before + Named(bones[..j], names[c])
      {
        assert bones[..j + 1][..j] == bones[..j];
        if bones[j].name == names[c] {
          bone.children := bone.children + [bones[j]];
        }
      }
      assert bones[..|bones|] == bones;
      assert names[..c + 1][..c] == names[..c];
    }
    assert names[..|names|] == names;
  }

  // ---------------------------------------------------------------- the loader

  method ReadTexts(stream: ByteStream, count: nat) returns (texts: seq<Text>)
    requires stream.Valid()
    modifies stream
    ensures stream.Valid() && ReadsMany(old(stream.Unread()), ParseString, count, texts, stream.Unread())
  {
    texts := [];
    ReadsNone(stream.Unread(), ParseString);
    for index := 0 to count
      invariant stream.Valid()
      invariant ReadsMany(old(stream.Unread()), ParseString, index, texts, stream.Unread())
    {
      ghost var mid := stream.Unread();
      var t := stream.ReadString();
      ReadsOneMore(old(stream.Unread()), ParseString, index, texts, mid, t, stream.Unread());
      texts := texts + [t];
    }
  }

  method ReadBone(stream: ByteStream) returns (b: StoredBone)
    requires stream.Valid()
    modifies stream
    ensures stream.Valid() && Reads(old(stream.Unread()), ParseBone, b, stream.Unread())
  {
    var name := stream.ReadString();
    var transform := ReadTexts(stream, 16);
    var count := stream.ReadUnsigned();
    var children := ReadTexts(stream, count);
    b := StoredBone(name, transform, children);
  }

  method ReadTransform(stream: ByteStream) returns (t: Transform)
    requires stream.Valid()
    modifies stream
    ensures stream.Valid() && Reads(old(stream.Unread()), ParseTransform, t, stream.Unread())
  {
    var time := stream.ReadString();
    var position := ReadTexts(stream, 4);
    var scale := ReadTexts(stream, 4);
    var rotation := ReadTexts(stream, 4);
    t := Transform(time, position, scale, rotation);
  }

  method ReadNode(stream: ByteStream) returns (n: Node)
    requires stream.Valid()
    modifies stream
    ensures stream.Valid() && Reads(old(stream.Unread()), ParseNode, n, stream.Unread())
  {
    var name := stream.ReadString();
    var count := stream.ReadUnsigned();
    ghost var before := stream.Unread();
    var transforms := [];
    ReadsNone(before, ParseTransform);
    for index := 0 to count
      invariant stream.Valid()
      invariant ReadsMany(before, ParseTransform, index, transforms, stream.Unread())
    {
      ghost var mid := stream.Unread();
      var t := ReadTransform(stream);
      ReadsOneMore(before, ParseTransform, index, transforms, mid, t, stream.Unread());
      transforms := transforms + [t];
    }
    n := Node(name, transforms);
  }

  method ReadAnimation(stream: ByteStream) returns (a: Animation)
    requires stream.Valid()
    modifies stream
    ensures stream.Valid() && Reads(old(stream.Unread()), ParseAnimation, a, stream.Unread())
  {
    var name := stream.ReadString();
    var duration := stream.ReadString();
    var fps := stream.ReadString();
    var count := stream.ReadUnsigned();
    ghost var before := stream.Unread();
    var nodes := [];
    ReadsNone(before, ParseNode);
    for index := 0 to count
      invariant stream.Valid()
      invariant ReadsMany(before, ParseNode, index, nodes, stream.Unread())
    {
      ghost var mid := stream.Unread();
      var n := ReadNode(stream);
      ReadsOneMore(before, ParseNode, index, nodes, mid, n, stream.Unread());
      nodes := nodes + [n];
    }
    a := Animation(name, duration, fps, nodes);
  }

  method ReadAnimations(stream: ByteStream, count: nat) returns (list: seq<Animation>)
    requires stream.Valid()
    modifies stream
    ensures stream.Valid() && ReadsMany(old(stream.Unread()), ParseAnimation, count, list, stream.Unread())
  {
    list := [];
    ReadsNone(stream.Unread(), ParseAnimation);
    for index := 0 to count
      invariant stream.Valid()
      invariant ReadsMany(old(stream.Unread()), ParseAnimation, index, list, stream.Unread())
    {
      ghost var mid := stream.Unread();
      var a := ReadAnimation(stream);
      ReadsOneMore(old(stream.Unread()), ParseAnimation, index, list, mid, a, stream.Unread());
      list := list + [a];
    }
  }

  /** Bones as they stand right after reading, before the links are resolved. */
  ghost predicate Unlinked(bones: seq<Bone>, stored: seq<StoredBone>)
    reads bones
  {
    && |bones| == |stored|
    && (forall i, j | 0 <= i < j < |bones| :: bones[i] != bones[j])
    && (forall i | 0 <= i < |bones| :: AsStored(bones[i], stored[i]))
  }

  ghost predicate AsStored(b: Bone, s: StoredBone)
    reads b
  {
    b.name == s.name && b.transform == s.transform && b.children == [] && b.pending == s.children
  }

  method ReadBones(stream: ByteStream, count: nat) returns (bones: seq<Bone>, ghost stored: seq<StoredBone>)
    requires stream.Valid()
    modifies stream
    ensures stream.Valid() && ReadsMany(old(stream.Unread()), ParseBone, count, stored, stream.Unread())
    ensures Unlinked(bones, stored) && fresh(bones)
  {
    bones, stored := [], [];
    ReadsNone(stream.Unread(), ParseBone);
    for index := 0 to count
      invariant stream.Valid()
      invariant ReadsMany(old(stream.Unread()), ParseBone, index, stored, stream.Unread())
      invariant Unlinked(bones, stored) && fresh(bones)
    {
      ghost var mid := stream.Unread();
      var s := ReadBone(stream);
      ReadsOneMore(old(stream.Unread()), ParseBone, index, stored, mid, s, stream.Unread());
      bones := AppendBone(bones, s, stored);
      stored := stored + [s];
    }
  }

  method AppendBone(bones: seq<Bone>, s: StoredBone, ghost stored: seq<StoredBone>) returns (more: seq<Bone>)
    requires Unlinked(bones, stored)
    ensures |more| == |bones| + 1 && more[..|bones|] == bones && fresh(more[|bones|])
    ensures Unlinked(more, stored + [s])
  {
    var b := new Bone(s);
    more := bones + [b];
  }

  ghost predicate Linked(b: Bone, bones: seq<Bone>, s: StoredBone)
    reads b
  {
    b.name == s.name && b.transform == s.transform && b.children == Links(bones, s.children) && b.pending == []
  }

  method LinkAll(bones: seq<Bone>, ghost stored: seq<StoredBone>)
    requires Unlinked(bones, stored)
    modifies bones
    ensures forall i | 0 <= i < |bones| :: Linked(bones[i], bones, stored[i])
  {
    assert forall i | 0 <= i < |bones| :: AsStored(bones[i], stored[i]);
    FindBones(bones);
    forall i | 0 <= i < |bones| ensures Linked(bones[i], bones, stored[i]) {
      assert [] + Links(bones, stored[i].children) == Links(bones, stored[i].children);
    }
  }

  class NssFile {
    var version: u32
    var rootIndex: u32
    var bones: seq<Bone>
    var animations: seq<Animation>

    constructor ()
      ensures version == 0 && bones == [] && animations == []
    {
      version, rootIndex := 0, 0;
      bones, animations := [], [];
    }

    /** The loaded bones carry the stored data, and their children are the links of the
        stored names. */
    ghost predicate Holds(s: Skeleton)
      reads this, bones
    {
      && rootIndex == s.root && animations == s.animations && |bones| == |s.bones|
      && forall i | 0 <= i < |bones| :: Linked(bones[i], bones, s.bones[i])
    }

    /** Loads a skeleton from bytes, forgetting what was loaded before.  A wrong magic number
        fails; a version other than 1 succeeds without contents. */
    method Load(bytes: seq<byte>) returns (success: bool)
      modifies this
      ensures Parse(bytes).Ok? ==> success && version == 1 && Holds(Parse(bytes).value)
      ensures ParseMagic(bytes).Ok? && ParseMagic(bytes).value != MAGIC ==>
        !success && bones == [] && animations == [] && version == old(version)
      ensures ParseMagic(bytes).Ok? && ParseMagic(bytes).value == MAGIC ==> success
      ensures ParseMagic(bytes).Ok? && ParseMagic(bytes).value == MAGIC
              && ParseWord(ParseMagic(bytes).rest).Ok? && ParseWord(ParseMagic(bytes).rest).value != 1 ==>
        bones == [] && animations == [] && version == ParseWord(ParseMagic(bytes).rest).value
    {
      bones, animations := [], [];
      var stream := new ByteStream(bytes);
      var magic := stream.ReadMagic();
      if magic != MAGIC {
        return false;
      }
      version := stream.ReadUnsigned();
      if version == 1 {
        LoadContents(stream);
      }
      return true;
    }

    method LoadContents(stream: ByteStream)
      requires stream.Valid()
      modifies this`rootIndex, this`bones, this`animations, stream
      ensures old(stream.Unread()).Some? ==>
        var c := ParseCounts(old(stream.Unread()).value);
        c.Ok? && ParseBody(c.value, c.rest).Ok? ==> Holds(ParseBody(c.value, c.rest).value)
    {
      ghost var stored;
      rootIndex, bones, stored, animations := ReadContents(stream);
      LinkAll(bones, stored);
    }
  }

  /** Reads the root, the two counts, the bones and the animations. */
  method ReadContents(stream: ByteStream)
    returns (root: u32, bones: seq<Bone>, ghost stored: seq<StoredBone>, animations: seq<Animation>)
    requires stream.Valid()
    modifies stream
    ensures Unlinked(bones, stored) && fresh(bones)
    ensures old(stream.Unread()).Some? ==>
      var c := ParseCounts(old(stream.Unread()).value);
      c.Ok? && ParseBody(c.value, c.rest).Ok? ==>
        ParseBody(c.value, c.rest).value == Skeleton(root, stored, animations)
  {
    root := stream.ReadUnsigned();
    var numBones := stream.ReadUnsigned();
    var numAnimations := stream.ReadUnsigned();
    bones, stored := ReadBones(stream, numBones);
    animations := ReadAnimations(stream, numAnimations);
  }

  predicate Stored(bones: seq<StoredBone>, name: Text) {
    exists j :: 0 <= j < |bones| && bones[j].name == name
  }

  lemma {:induction false} StoredPresent(bones: seq<Bone>, stored: seq<StoredBone>, name: Text)
    requires |bones| == |stored| && Stored(stored, name)
    requires forall i | 0 <= i < |bones| :: bones[i].name == stored[i].name
    ensures Present(bones, name)
  {
    var j :| 0 <= j < |stored| && stored[j].name == name;
    assert bones[j].name == name;
  }

  predicate Sound(s: Skeleton) {
    && (forall i, j | 0 <= i < j < |s.bones| :: s.bones[i].name != s.bones[j].name)
    && (forall i, k | 0 <= i < |s.bones| && 0 <= k < |s.bones[i].children| ::
          Stored(s.bones, s.bones[i].children[k]))
  }

  /** In a skeleton whose bone names are unique and whose child names all exist, child k of
      bone i is the bone that carries the k-th name stored for bone i. */
  lemma {:induction false} ChildrenFound(file: NssFile, s: Skeleton, i: nat, k: nat)
    requires Sound(s) && file.Holds(s)
    requires i < |s.bones| && k < |s.bones[i].children|
    ensures |file.bones[i].children| == |s.bones[i].children|
    ensures file.bones[i].children[k] in file.bones
    ensures file.bones[i].children[k].name == s.bones[i].children[k]
  {
    assert Linked(file.bones[i], file.bones, s.bones[i]);
    assert forall j | 0 <= j < |s.bones| :: Linked(file.bones[j], file.bones, s.bones[j]);
    forall l | 0 <= l < |s.bones[i].children| ensures Present(file.bones, s.bones[i].children[l]) {
      StoredPresent(file.bones, s.bones, s.bones[i].children[l]);
    }
    assert UniqueNames(file.bones);
    LinksUnique(file.bones, s.bones[i].children, k);
  }

  /** In any loaded skeleton the children of a bone are all bones of its first stored name, then
      all of its second, and so on. */
  lemma {:induction false} ChildrenResolved(file: NssFile, s: Skeleton, i: nat)
    requires file.Holds(s) && i < |s.bones|
    ensures Resolved(file.bones[i].children, file.bones, s.bones[i].children)
  {
    assert Linked(file.bones[i], file.bones, s.bones[i]);
    LinksResolved(file.bones, s.bones[i].children);
  }

  /** Loading what was written gives the skeleton back, with any suffix ignored. */
  method LoadEncoding(file: NssFile, bytes: seq<byte>, ghost s: Skeleton, ghost suffix: seq<byte>) returns (success: bool)
    requires SkeletonOk(s) && bytes == Encode(s) + suffix
    modifies file
    ensures success && file.Holds(s)
  {
    SkeletonEncoded(s, suffix);
    success := file.Load(bytes);
  }
}
