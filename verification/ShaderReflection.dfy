/** What is derived from a loaded shader file: the vertex layout, the descriptor set
    layout, and the names a descriptor pool knows. */
module ShaderReflection {
  import opened Wrappers
  import opened Codec
  import opened NyxFiles
  import opened OrderedMaps

  // ---------------------------------------------------------------- vertex layout

  const MAT4: Name := [109, 97, 116, 52]
  const MAT3: Name := [109, 97, 116, 51]
  const MAT2: Name := [109, 97, 116, 50]

  const SIZE_OF_FLOAT: nat := 4

  /** A matrix is passed as one attribute per column. */
  function Iterations(a: Attribute): (r: nat)
    ensures 1 <= r <= 4
  {
    var t := CString(a.typeName);
    if t == MAT4 then 4 else if t == MAT3 then 3 else if t == MAT2 then 2 else 1
  }

  /** The bytes of one attribute; a column of a two-by-two matrix takes three floats. */
  function ByteSize(a: Attribute): nat {
    var t := CString(a.typeName);
    if t == MAT4 then 4 * SIZE_OF_FLOAT
    else if t == MAT3 then 3 * SIZE_OF_FLOAT
    else if t == MAT2 then 3 * SIZE_OF_FLOAT
    else a.size
  }

  datatype VertexAttribute = VertexAttribute(location: u32, offset: u32)

  /** Every input, matrices once per column. */
  function Columns(inputs: seq<Attribute>): seq<Attribute> {
    if inputs == [] then []
    else
      var last := inputs[|inputs| - 1];
      Columns(inputs[..|inputs| - 1]) + Repeat(last, Iterations(last))
  }

  function Repeat(a: Attribute, n: nat): (r: seq<Attribute>)
    ensures |r| == n && forall i | 0 <= i < n :: r[i] == a
  {
    seq(n, _ => a)
  }

  /** The bytes of a list of columns, as an unbounded number. */
  function Total(columns: seq<Attribute>): nat {
    if columns == [] then 0 else Total(columns[..|columns| - 1]) + ByteSize(columns[|columns| - 1])
  }

  /** Where column `k` starts: the sizes of the columns before it. */
  function Start(columns: seq<Attribute>, k: nat): nat
    requires k <= |columns|
  {
    Total(columns[..k])
  }

  function Wrap(n: nat): u32 {
    n % 0x1_0000_0000
  }

  /** One attribute per column, each at the 32-bit running offset. */
  function Describe(columns: seq<Attribute>): (r: seq<VertexAttribute>)
    ensures |r| == |columns|
  {
    if columns == [] then []
    else
      var front, last := columns[..|columns| - 1], columns[|columns| - 1];
      Describe(front) + [VertexAttribute(last.location, Wrap(Total(front)))]
  }

  lemma {:induction false} DescribeAt(columns: seq<Attribute>, k: nat)
    requires k < |columns|
    ensures Describe(columns)[k] == VertexAttribute(columns[k].location, Wrap(Start(columns, k)))
  {
    var n := |columns| - 1;
    if k < n {
      DescribeAt(columns[..n], k);
      assert columns[..n][..k] == columns[..k];
    }
  }

  /** The type name, read up to its first zero byte, is "mat" and the digit `n`. */
  predicate NamesMatrix(typeName: Name, n: nat)
    requires 2 <= n <= 4
  {
    && |typeName| >= 4
    && typeName[0] == 109 && typeName[1] == 97 && typeName[2] == 116 && typeName[3] == 48 + n
    && (|typeName| == 4 || typeName[4] == 0)
  }

  /** How many attributes an input takes, and how many bytes each of them: a square matrix of
      side n has n columns, and anything else is one column of the size the file states. */
  function ColumnsIn(a: Attribute): nat {
    if NamesMatrix(a.typeName, 2) then 2
    else if NamesMatrix(a.typeName, 3) then 3
    else if NamesMatrix(a.typeName, 4) then 4
    else 1
  }

  function BytesIn(a: Attribute): nat {
    if NamesMatrix(a.typeName, 4) then 16
    else if NamesMatrix(a.typeName, 2) || NamesMatrix(a.typeName, 3) then 12
    else a.size
  }

  lemma {:induction false} NamedMatrix(typeName: Name, n: nat)
    requires 2 <= n <= 4
    ensures CString(typeName) == [109, 97, 116, 48 + n] <==> NamesMatrix(typeName, n)
  {
    var t := CString(typeName);
    CStringLongest(typeName);
    if NamesMatrix(typeName, n) {
      assert forall i | 0 <= i < |t| :: t[i] == typeName[i];
      assert |t| == 4;
    }
  }

  /** The code, which compares the name with three others, counts columns and bytes so. */
  lemma {:induction false} InputShape(a: Attribute)
    ensures Iterations(a) == ColumnsIn(a) && ByteSize(a) == BytesIn(a)
  {
    NamedMatrix(a.typeName, 2);
    NamedMatrix(a.typeName, 3);
    NamedMatrix(a.typeName, 4);
  }

  function SumOfColumns(inputs: seq<Attribute>): nat {
    if inputs == [] then 0
    else SumOfColumns(inputs[..|inputs| - 1]) + ColumnsIn(inputs[|inputs| - 1])
  }

  function SumOfBytes(inputs: seq<Attribute>): nat {
    if inputs == [] then 0
    else SumOfBytes(inputs[..|inputs| - 1]) + ColumnsIn(inputs[|inputs| - 1]) * BytesIn(inputs[|inputs| - 1])
  }

  lemma {:induction false} ColumnCount(inputs: seq<Attribute>)
    ensures |Columns(inputs)| == SumOfColumns(inputs)
    ensures Total(Columns(inputs)) == SumOfBytes(inputs)
  {
    if inputs != [] {
      var front, last := inputs[..|inputs| - 1], inputs[|inputs| - 1];
      ColumnCount(front);
      InputShape(last);
      TotalRepeat(Columns(front), last, Iterations(last));
    }
  }

  /** Where column `c` of input `i` stands among all attributes. */
  function Place(inputs: seq<Attribute>, i: nat, c: nat): nat
    requires i < |inputs|
  {
    SumOfColumns(inputs[..i]) + c
  }

  /** The byte it starts at, behind all earlier inputs and all earlier columns of its own. */
  function Offset(inputs: seq<Attribute>, i: nat, c: nat): nat
    requires i < |inputs|
  {
    SumOfBytes(inputs[..i]) + c * BytesIn(inputs[i])
  }

  predicate ColumnIs(columns: seq<Attribute>, k: nat, a: Attribute, start: nat) {
    k < |columns| && columns[k] == a && Start(columns, k) == start
  }

  lemma {:induction false} ColumnAt(inputs: seq<Attribute>, i: nat, c: nat)
    requires i < |inputs| && c < ColumnsIn(inputs[i])
    ensures ColumnIs(Columns(inputs), Place(inputs, i, c), inputs[i], Offset(inputs, i, c))
  {
    var n := |inputs| - 1;
    ColumnsSplit(inputs);
    if i < n {
      PlaceKept(inputs, i, c);
      ColumnAt(inputs[..n], i, c);
      ColumnKept(Columns(inputs[..n]), Repeat(inputs[n], Iterations(inputs[n])), Place(inputs, i, c));
    } else {
      LastInputAt(inputs[..n], inputs[n], c);
    }
  }

  lemma {:induction false} ColumnsSplit(inputs: seq<Attribute>)
    requires inputs != []
    ensures var n := |inputs| - 1;
      Columns(inputs) == Columns(inputs[..n]) + Repeat(inputs[n], Iterations(inputs[n]))
  {
  }

  lemma {:induction false} LastInputAt(front: seq<Attribute>, a: Attribute, c: nat)
    requires c < ColumnsIn(a)
    ensures ColumnIs(Columns(front) + Repeat(a, Iterations(a)), SumOfColumns(front) + c, a,
                     SumOfBytes(front) + c * BytesIn(a))
  {
    ColumnCount(front);
    LastColumnAt(Columns(front), SumOfColumns(front), SumOfBytes(front), a, c);
  }

  lemma {:induction false} PlaceKept(inputs: seq<Attribute>, i: nat, c: nat)
    requires i < |inputs| - 1
    ensures var front := inputs[..|inputs| - 1];
      && front[i] == inputs[i]
      && Place(front, i, c) == Place(inputs, i, c) && Offset(front, i, c) == Offset(inputs, i, c)
  {
    assert inputs[..|inputs| - 1][..i] == inputs[..i];
  }

  lemma {:induction false} LastColumnAt(columns: seq<Attribute>, count: nat, total: nat, a: Attribute, c: nat)
    requires |columns| == count && Total(columns) == total && c < ColumnsIn(a)
    ensures ColumnIs(columns + Repeat(a, Iterations(a)), count + c, a, total + c * BytesIn(a))
  {
    InputShape(a);
    assert (columns + Repeat(a, Iterations(a)))[..count + c] == columns + Repeat(a, c);
    TotalRepeat(columns, a, c);
  }

  lemma {:induction false} ColumnKept(columns: seq<Attribute>, more: seq<Attribute>, k: nat)
    requires k < |columns|
    ensures (columns + more)[k] == columns[k] && Start(columns + more, k) == Start(columns, k)
  {
    assert (columns + more)[..k] == columns[..k];
  }

  /** Column `c` of input `i` has the location of the input, and its offset modulo 2^32. */
  predicate ColumnLaid(inputs: seq<Attribute>, layout: seq<VertexAttribute>, i: nat, c: nat)
    requires i < |inputs|
  {
    && Place(inputs, i, c) < |layout|
    && layout[Place(inputs, i, c)].location == inputs[i].location
    && layout[Place(inputs, i, c)].offset == Offset(inputs, i, c) % 0x1_0000_0000
  }

  /** The vertex layout of a list of inputs: all columns of all inputs, and nothing else. */
  ghost predicate LaidOut(inputs: seq<Attribute>, layout: seq<VertexAttribute>) {
    && |layout| == SumOfColumns(inputs)
    && forall i, c | 0 <= i < |inputs| && 0 <= c < ColumnsIn(inputs[i]) :: ColumnLaid(inputs, layout, i, c)
  }

  lemma {:induction false} DescribedLaidOut(inputs: seq<Attribute>)
    ensures LaidOut(inputs, Describe(Columns(inputs)))
    ensures Wrap(Total(Columns(inputs))) == SumOfBytes(inputs) % 0x1_0000_0000
  {
    ColumnCount(inputs);
    forall i, c | 0 <= i < |inputs| && 0 <= c < ColumnsIn(inputs[i])
      ensures ColumnLaid(inputs, Describe(Columns(inputs)), i, c)
    {
      DescribedColumn(inputs, i, c);
    }
  }

  lemma {:induction false} DescribedColumn(inputs: seq<Attribute>, i: nat, c: nat)
    requires i < |inputs| && c < ColumnsIn(inputs[i])
    ensures ColumnLaid(inputs, Describe(Columns(inputs)), i, c)
  {
    ColumnAt(inputs, i, c);
    DescribeAt(Columns(inputs), Place(inputs, i, c));
  }

  lemma {:induction false} LaidOutBehind(earlier: seq<VertexAttribute>, inputs: seq<Attribute>, all: seq<VertexAttribute>)
    requires all == earlier + Describe(Columns(inputs))
    ensures |earlier| <= |all| && all[..|earlier|] == earlier && LaidOut(inputs, all[|earlier|..])
  {
    assert all[|earlier|..] == Describe(Columns(inputs));
    DescribedLaidOut(inputs);
  }

  /** A single four-by-four matrix: four attributes of sixteen bytes each. */
  lemma {:induction false} OneMatrix(a: Attribute, layout: seq<VertexAttribute>)
    requires a.typeName == [109, 97, 116, 52] && layout == Describe(Columns([a]))
    ensures |layout| == 4 && Wrap(Total(Columns([a]))) == 64
    ensures layout[0].offset == 0 && layout[1].offset == 16 && layout[2].offset == 32 && layout[3].offset == 48
  {
    assert ColumnsIn(a) == 4 && BytesIn(a) == 16;
    OneSum(a);
    ColumnCount([a]);
    ColumnOffset(a, 0, 0);
    ColumnOffset(a, 1, 16);
    ColumnOffset(a, 2, 32);
    ColumnOffset(a, 3, 48);
  }

  lemma {:induction false} OneSum(a: Attribute)
    ensures SumOfColumns([a]) == ColumnsIn(a) && SumOfBytes([a]) == ColumnsIn(a) * BytesIn(a)
  {
    assert [a][..0] == [];
    assert SumOfColumns([]) == 0 && SumOfBytes([]) == 0;
  }

  lemma {:induction false} ColumnOffset(a: Attribute, c: nat, offset: nat)
    requires c < ColumnsIn(a) && offset == c * BytesIn(a) < WORD_LIMIT
    ensures c < |Describe(Columns([a]))| && Describe(Columns([a]))[c].offset == offset
  {
    assert [a][..0] == [] && Place([a], 0, c) == c && Offset([a], 0, c) == offset;
    assert c < |Columns([a])| && Start(Columns([a]), c) == offset by {
      ColumnAt([a], 0, c);
    }
    DescribeAt(Columns([a]), c);
    WrapExact(offset);
  }

  lemma {:induction false} TotalRepeat(columns: seq<Attribute>, a: Attribute, n: nat)
    ensures Total(columns + Repeat(a, n)) == Total(columns) + n * ByteSize(a)
  {
    if n == 0 {
      assert columns + Repeat(a, 0) == columns;
    } else {
      var x := ByteSize(a);
      TotalRepeat(columns, a, n - 1);
      assert columns + Repeat(a, n) == (columns + Repeat(a, n - 1)) + [a];
      TotalAppend(columns + Repeat(a, n - 1), a);
      OneTimeMore(n, x);
    }
  }

  lemma {:induction false} TotalAppend(columns: seq<Attribute>, a: Attribute)
    ensures Total(columns + [a]) == Total(columns) + ByteSize(a)
  {
    assert (columns + [a])[..|columns|] == columns;
  }

  lemma {:induction false} OneTimeMore(n: nat, x: nat)
    requires n > 0
    ensures n * x == (n - 1) * x + x
  {
  }

  lemma {:induction false} StartNext(columns: seq<Attribute>, k: nat)
    requires k < |columns|
    ensures Start(columns, k + 1) == Start(columns, k) + ByteSize(columns[k])
  {
    assert columns[..k + 1][..k] == columns[..k];
  }

  lemma {:induction false} StartMonotone(columns: seq<Attribute>, j: nat, k: nat)
    requires j <= k <= |columns|
    ensures Start(columns, j) <= Start(columns, k)
    decreases k - j
  {
    if j < k {
      StartNext(columns, j);
      StartMonotone(columns, j + 1, k);
    }
  }

  /** The columns tile the vertex: every byte below the total lies in exactly one of them. */
  lemma {:induction false} ByteOwner(columns: seq<Attribute>, x: nat) returns (k: nat)
    requires x < Total(columns)
    ensures k < |columns| && Start(columns, k) <= x < Start(columns, k) + ByteSize(columns[k])
    ensures forall j | 0 <= j < |columns| && j != k ::
              !(Start(columns, j) <= x < Start(columns, j) + ByteSize(columns[j]))
  {
    assert columns[..|columns|] == columns;
    k := FindByte(columns, x, |columns|);
    forall j | 0 <= j < |columns| && j != k
      ensures !(Start(columns, j) <= x < Start(columns, j) + ByteSize(columns[j]))
    {
      StartNext(columns, j);
      StartNext(columns, k);
      if j < k {
        StartMonotone(columns, j + 1, k);
      } else {
        StartMonotone(columns, k + 1, j);
      }
    }
  }

  lemma {:induction false} FindByte(columns: seq<Attribute>, x: nat, n: nat) returns (k: nat)
    requires n <= |columns| && x < Start(columns, n)
    ensures k < n && Start(columns, k) <= x < Start(columns, k) + ByteSize(columns[k])
  {
    StartNext(columns, n - 1);
    if x < Start(columns, n - 1) {
      k := FindByte(columns, x, n - 1);
    } else {
      k := n - 1;
    }
  }

  lemma {:induction false} WrapExact(n: nat)
    ensures Wrap(n) == n <==> n < WORD_LIMIT
  {
  }

  /** The 32-bit offsets and the stride are the true ones if and only if the vertex is
      smaller than 2^32 bytes. */
  lemma {:induction false} OffsetsExact(columns: seq<Attribute>)
    ensures Wrap(Total(columns)) == Total(columns) <==> Total(columns) < WORD_LIMIT
    ensures Total(columns) < WORD_LIMIT ==>
      forall k | 0 <= k < |columns| :: Describe(columns)[k].offset == Start(columns, k)
  {
    WrapExact(Total(columns));
    assert columns[..|columns|] == columns;
    forall k | 0 <= k < |columns| && Total(columns) < WORD_LIMIT
      ensures Describe(columns)[k].offset == Start(columns, k)
    {
      StartMonotone(columns, k, |columns|);
      WrapExact(Start(columns, k));
      DescribeAt(columns, k);
    }
  }

  // ---------------------------------------------------------------- descriptors

  datatype StageBit = VertexBit | FragmentBit | GeometryBit | TessControlBit | TessEvaluationBit | ComputeBit

  datatype DescriptorType = SamplerType | CombinedImageSampler | UniformBuffer | StorageBuffer

  /** Stages are numbered in the order of the enumeration of `NyxFile.h`; a number outside
      it counts as a fragment stage. */
  function StageOf(stage: u32): StageBit {
    if stage == 0 then VertexBit
    else if stage == 2 then GeometryBit
    else if stage == 3 then TessControlBit
    else if stage == 4 then TessEvaluationBit
    else if stage == 5 then ComputeBit
    else FragmentBit
  }

  /** Input images and unknown kinds leave the type of the previous binding. */
  function TypeOf(kind: u32, previous: DescriptorType): DescriptorType {
    if kind == 0 || kind == 1 then UniformBuffer
    else if kind == 2 then CombinedImageSampler
    else if kind == 4 then StorageBuffer
    else previous
  }

  /** Which stage and which descriptor type the numbers of a file stand for. */
  lemma {:induction false} NumberedStages(stage: u32, kind: u32, previous: DescriptorType)
    ensures [StageOf(0), StageOf(1), StageOf(2), StageOf(3), StageOf(4), StageOf(5)] ==
            [VertexBit, FragmentBit, GeometryBit, TessControlBit, TessEvaluationBit, ComputeBit]
    ensures stage > 5 ==> StageOf(stage) == FragmentBit
    ensures kind < 5 ==> TypeOf(kind, previous) ==
                         [UniformBuffer, UniformBuffer, CombinedImageSampler, previous, StorageBuffer][kind]
    ensures kind >= 5 ==> TypeOf(kind, previous) == previous
  {
  }

  datatype Binding = Binding(binding: u32, count: u32, stages: set<StageBit>, kind: DescriptorType)

  /** One uniform of one stage, under the name a C string gives it. */
  datatype Occurrence = Occurrence(stage: StageBit, name: Name, uniform: Uniform)

  function StageOccurrences(s: Shader): (r: seq<Occurrence>)
    ensures |r| == |s.uniforms|
    ensures forall i | 0 <= i < |r| ::
      r[i] == Occurrence(StageOf(s.stage), CString(s.uniforms[i].name), s.uniforms[i])
  {
    seq(|s.uniforms|, i requires 0 <= i < |s.uniforms| =>
      Occurrence(StageOf(s.stage), CString(s.uniforms[i].name), s.uniforms[i]))
  }

  /** All uniforms of a file, stage after stage. */
  function Occurrences(shaders: seq<Shader>): seq<Occurrence> {
    if shaders == [] then []
    else Occurrences(shaders[..|shaders| - 1]) + StageOccurrences(shaders[|shaders| - 1])
  }

  type BindingMap = seq<Entry<Binding>>

  /** What the merging loop carries: the map, and the one binding structure it reuses. */
  datatype Merge = Merge(map_: BindingMap, carried: Binding)

  const START: Merge := Merge([], Binding(0, 0, {}, SamplerType))

  function MergeStep(m: Merge, o: Occurrence): Merge {
    if Has(m.map_, o.name) then
      var b := Get(m.map_, o.name);
      m.(map_ := Put(m.map_, o.name, b.(stages := b.stages + {o.stage})))
    else
      var b := Binding(o.uniform.binding, o.uniform.size, m.carried.stages + {o.stage},
                       TypeOf(o.uniform.kind, m.carried.kind));
      Merge(Put(m.map_, o.name, b), b)
  }

  function Merged(os: seq<Occurrence>): Merge {
    if os == [] then START else MergeStep(Merged(os[..|os| - 1]), os[|os| - 1])
  }

  /** The first occurrence of a name, or the length. */
  function First(os: seq<Occurrence>, name: Name): (r: nat)
    ensures r <= |os|
    ensures forall i | 0 <= i < r :: os[i].name != name
    ensures r < |os| ==> os[r].name == name
  {
    if os == [] then 0
    else
      var k := First(os[..|os| - 1], name);
      if k < |os| - 1 || os[|os| - 1].name == name then k else k + 1
  }

  /** The stages that declare a name. */
  function Declares(os: seq<Occurrence>, name: Name): set<StageBit> {
    if os == [] then {}
    else
      var o := os[|os| - 1];
      Declares(os[..|os| - 1], name) + (if o.name == name then {o.stage} else {})
  }

  /** The stages of the occurrences that brought in a new name. */
  function Introducing(os: seq<Occurrence>): set<StageBit> {
    if os == [] then {}
    else
      var front, o := os[..|os| - 1], os[|os| - 1];
      Introducing(front) + (if First(front, o.name) == |front| then {o.stage} else {})
  }

  lemma {:induction false} DeclaresExactly(os: seq<Occurrence>, name: Name, s: StageBit)
    ensures s in Declares(os, name) <==> exists i :: 0 <= i < |os| && os[i].name == name && os[i].stage == s
  {
    if os != [] {
      var front := os[..|os| - 1];
      DeclaresExactly(front, name, s);
      if i :| 0 <= i < |front| && front[i].name == name && front[i].stage == s {
        assert os[i].name == name && os[i].stage == s;
      }
      if i :| 0 <= i < |os| && os[i].name == name && os[i].stage == s {
        assert i < |front| ==> front[i].name == name && front[i].stage == s;
      }
    }
  }

  lemma {:induction false} IntroducingWithin(os: seq<Occurrence>, s: StageBit)
    ensures s in Introducing(os) ==> exists i :: 0 <= i < |os| && os[i].stage == s
  {
    if os != [] {
      var front := os[..|os| - 1];
      IntroducingWithin(front, s);
      if i :| 0 <= i < |front| && front[i].stage == s {
        assert os[i].stage == s;
      } else if s in Introducing(os) {
        assert os[|os| - 1].stage == s;
      }
    }
  }

  /** The binding that belongs to a name, in terms of its occurrences only. */
  ghost predicate BindingOf(os: seq<Occurrence>, name: Name, b: Binding)
    requires First(os, name) < |os|
  {
    var f := First(os, name);
    && b.binding == os[f].uniform.binding
    && b.count == os[f].uniform.size
    && (os[f].uniform.kind < 2 ==> b.kind == UniformBuffer)
    && (os[f].uniform.kind == 2 ==> b.kind == CombinedImageSampler)
    && (os[f].uniform.kind == 4 ==> b.kind == StorageBuffer)
    && b.stages == Declares(os, name) + Introducing(os[..f + 1])
  }

  lemma {:induction false} FirstAppend(os: seq<Occurrence>, o: Occurrence, name: Name)
    ensures First(os + [o], name) ==
      if First(os, name) < |os| then First(os, name)
      else if o.name == name then |os| else |os| + 1
  {
    assert (os + [o])[..|os|] == os;
  }

  lemma {:induction false} Appended(os: seq<Occurrence>, o: Occurrence, name: Name)
    ensures Introducing(os + [o]) == Introducing(os) + (if First(os, o.name) == |os| then {o.stage} else {})
    ensures Declares(os + [o], name) == Declares(os, name) + (if o.name == name then {o.stage} else {})
  {
    assert (os + [o])[..|os|] == os;
  }

  lemma {:induction false} UndeclaredName(os: seq<Occurrence>, name: Name)
    requires First(os, name) == |os|
    ensures Declares(os, name) == {}
  {
    if os != [] {
      UndeclaredName(os[..|os| - 1], name);
    }
  }

  /** The map so far is ordered, and the carried stages are those that brought in a name. */
  ghost predicate MergeOk(os: seq<Occurrence>, m: Merge) {
    Sorted(m.map_) && m.carried.stages == Introducing(os)
  }

  /** A name is in the map if and only if it occurred, with the binding that belongs to it. */
  ghost predicate NameOk(os: seq<Occurrence>, m: Merge, name: Name) {
    && (Has(m.map_, name) <==> First(os, name) < |os|)
    && (Has(m.map_, name) ==> BindingOf(os, name, Get(m.map_, name)))
  }

  /** An occurrence of a known name widens its stage mask. */
  lemma {:induction false} MergeStepKnown(os: seq<Occurrence>, m: Merge, o: Occurrence)
    requires MergeOk(os, m) && NameOk(os, m, o.name) && Has(m.map_, o.name)
    ensures MergeOk(os + [o], MergeStep(m, o)) && NameOk(os + [o], MergeStep(m, o), o.name)
  {
    var os', f := os + [o], First(os, o.name);
    StepIsPut(m, o);
    FirstAppend(os, o, o.name);
    Appended(os, o, o.name);
    assert os'[f] == os[f] && os'[..f + 1] == os[..f + 1];
  }

  /** An occurrence of a new name gets a binding of its own. */
  lemma {:induction false} MergeStepNew(os: seq<Occurrence>, m: Merge, o: Occurrence)
    requires MergeOk(os, m) && NameOk(os, m, o.name) && !Has(m.map_, o.name)
    ensures MergeOk(os + [o], MergeStep(m, o)) && NameOk(os + [o], MergeStep(m, o), o.name)
  {
    var os' := os + [o];
    StepIsPut(m, o);
    FirstAppend(os, o, o.name);
    Appended(os, o, o.name);
    UndeclaredName(os, o.name);
    assert os'[|os|] == o && os'[..|os| + 1] == os';
  }

  /** An occurrence of another name changes nothing about a binding. */
  lemma {:induction false} BindingKept(os: seq<Occurrence>, o: Occurrence, name: Name, b: Binding)
    requires First(os, name) < |os| && BindingOf(os, name, b) && name != o.name
    ensures First(os + [o], name) == First(os, name) && BindingOf(os + [o], name, b)
  {
    var os', f := os + [o], First(os, name);
    FirstAppend(os, o, name);
    Appended(os, o, name);
    assert os'[f] == os[f] && os'[..f + 1] == os[..f + 1];
  }

  lemma {:induction false} MergeStepOther(os: seq<Occurrence>, m: Merge, o: Occurrence, name: Name)
    requires Sorted(m.map_) && NameOk(os, m, name) && name != o.name
    ensures NameOk(os + [o], MergeStep(m, o), name)
  {
    var m' := MergeStep(m, o);
    StepIsPut(m, o);
    PutGet(m.map_, o.name, Get(m'.map_, o.name), name);
    FirstAppend(os, o, name);
    if Has(m.map_, name) {
      BindingKept(os, o, name, Get(m.map_, name));
      assert Get(m'.map_, name) == Get(m.map_, name);
    }
  }

  /** Both branches of a step put one binding under the name of the occurrence. */
  lemma {:induction false} StepIsPut(m: Merge, o: Occurrence)
    requires Sorted(m.map_)
    ensures Sorted(MergeStep(m, o).map_) && Has(MergeStep(m, o).map_, o.name)
    ensures MergeStep(m, o).map_ == Put(m.map_, o.name, Get(MergeStep(m, o).map_, o.name))
    ensures Has(m.map_, o.name) ==>
      && MergeStep(m, o).carried == m.carried
      && Get(MergeStep(m, o).map_, o.name) ==
           Get(m.map_, o.name).(stages := Get(m.map_, o.name).stages + {o.stage})
    ensures !Has(m.map_, o.name) ==>
      && MergeStep(m, o).carried == Get(MergeStep(m, o).map_, o.name)
      && Get(MergeStep(m, o).map_, o.name) ==
           Binding(o.uniform.binding, o.uniform.size, m.carried.stages + {o.stage},
                   TypeOf(o.uniform.kind, m.carried.kind))
  {
    var b := if Has(m.map_, o.name) then Get(m.map_, o.name).(stages := Get(m.map_, o.name).stages + {o.stage})
             else Binding(o.uniform.binding, o.uniform.size, m.carried.stages + {o.stage},
                          TypeOf(o.uniform.kind, m.carried.kind));
    PutSorted(m.map_, o.name, b);
    PutGet(m.map_, o.name, b, o.name);
  }

  /** The merge, exactly: its names are the names of the file in order, each with binding and
      count of its first occurrence; and its stage mask holds the stages that declare
      the name together with every stage that had brought in a name up to then. */
  lemma {:induction false} MergeExact(os: seq<Occurrence>, name: Name)
    ensures Sorted(Merged(os).map_)
    ensures Merged(os).carried.stages == Introducing(os)
    ensures Has(Merged(os).map_, name) <==> First(os, name) < |os|
    ensures Has(Merged(os).map_, name) ==> BindingOf(os, name, Get(Merged(os).map_, name))
  {
    if os != [] {
      var front, o := os[..|os| - 1], os[|os| - 1];
      assert os == front + [o];
      MergeExact(front, o.name);
      MergeExact(front, name);
      if Has(Merged(front).map_, o.name) {
        MergeStepKnown(front, Merged(front), o);
      } else {
        MergeStepNew(front, Merged(front), o);
      }
      if name != o.name {
        MergeStepOther(front, Merged(front), o, name);
      }
    }
  }

  /** The stage mask of a name is exactly the set of stages that declare it if and only if
      every stage that brought in a name, up to the first occurrence of this one, declares
      it too. */
  lemma {:induction false} MaskExact(os: seq<Occurrence>, name: Name)
    requires First(os, name) < |os|
    ensures Has(Merged(os).map_, name)
    ensures Get(Merged(os).map_, name).stages == Declares(os, name)
            <==> Introducing(os[..First(os, name) + 1]) <= Declares(os, name)
  {
    MergeExact(os, name);
    var declaring, introducing := Declares(os, name), Introducing(os[..First(os, name) + 1]);
    assert declaring + introducing == declaring <==> introducing <= declaring;
  }

  /** In any case the mask lies between the declaring stages and the stages of the file that
      have uniforms. */
  lemma {:induction false} MaskBetween(os: seq<Occurrence>, name: Name, s: StageBit)
    requires First(os, name) < |os|
    ensures Has(Merged(os).map_, name)
    ensures s in Declares(os, name) ==> s in Get(Merged(os).map_, name).stages
    ensures s in Get(Merged(os).map_, name).stages ==> exists i :: 0 <= i < |os| && os[i].stage == s
  {
    MergeExact(os, name);
    DeclaresExactly(os, name, s);
    IntroducingWithin(os[..First(os, name) + 1], s);
  }

  /** A stage mask that claims more than the file declares: a uniform of the fragment stage
      alone is announced to the vertex stage as well. */
  lemma {:induction false} MaskTooWide(a: Uniform, b: Uniform)
    requires CString(a.name) != CString(b.name)
    ensures var os := [Occurrence(VertexBit, CString(a.name), a), Occurrence(FragmentBit, CString(b.name), b)];
      && Declares(os, CString(b.name)) == {FragmentBit}
      && Has(Merged(os).map_, CString(b.name))
      && Get(Merged(os).map_, CString(b.name)).stages == {VertexBit, FragmentBit}
  {
    var x, y := Occurrence(VertexBit, CString(a.name), a), Occurrence(FragmentBit, CString(b.name), b);
    var os := [x, y];
    assert os == ([] + [x]) + [y] && [] + [x] == [x];
    FirstAppend([], x, x.name);
    FirstAppend([], x, y.name);
    FirstAppend([x], y, y.name);
    Appended([], x, y.name);
    Appended([x], y, y.name);
    assert os[..2] == os;
    MergeExact(os, y.name);
  }

  // ---------------------------------------------------------------- the shader

  function Values(m: BindingMap): (r: seq<Binding>)
    ensures |r| == |m| && forall i | 0 <= i < |r| :: r[i] == m[i].value
  {
    seq(|m|, i requires 0 <= i < |m| => m[i].value)
  }

  class NyxShaderData {
    var inputs: seq<VertexAttribute>
    var strides: seq<u32>
    var descriptors: seq<Binding>

    constructor ()
      ensures inputs == [] && strides == [] && descriptors == []
    {
      inputs, strides, descriptors := [], [], [];
    }

    /** Derives the vertex layout and the descriptor bindings from a loaded file, whose
        shaders come in the order of their stages. */
    method Parse(attributes: seq<Attribute>, shaders: seq<Shader>)
      modifies this`inputs, this`strides, this`descriptors
      ensures inputs == old(inputs) + Describe(Columns(attributes))
      ensures strides == old(strides) + [Wrap(Total(Columns(attributes)))]
      ensures |old(inputs)| <= |inputs| && LaidOut(attributes, inputs[|old(inputs)|..])
      ensures strides == old(strides) + [SumOfBytes(attributes) % 0x1_0000_0000]
      ensures descriptors == Values(Merged(Occurrences(shaders)).map_)
    {
      var offset := ParseInputs(attributes);
      var m := MergeShaders(shaders);
      strides := strides + [offset];
      descriptors := Collect(m.map_);
    }

    /** One attribute per column, at the running 32-bit offset. */
    method ParseInputs(attributes: seq<Attribute>) returns (offset: u32)
      modifies this`inputs
      ensures inputs == old(inputs) + Describe(Columns(attributes))
      ensures offset == Wrap(Total(Columns(attributes)))
      ensures |old(inputs)| <= |inputs| && inputs[..|old(inputs)|] == old(inputs)
      ensures LaidOut(attributes, inputs[|old(inputs)|..]) && offset == SumOfBytes(attributes) % 0x1_0000_0000
    {
      offset := 0;
      assert Columns(attributes[..0]) == [] && Describe([]) == [] && inputs + [] == inputs;
      for index := 0 to |attributes|
        invariant inputs == old(inputs) + Describe(Columns(attributes[..index]))
        invariant offset == Wrap(Total(Columns(attributes[..index])))
      {
        ColumnsNext(attributes, index);
        offset := AddColumns(attributes[index], offset, Columns(attributes[..index]), old(inputs));
      }
      assert attributes[..|attributes|] == attributes;
      LaidOutBehind(old(inputs), attributes, inputs);
      DescribedLaidOut(attributes);
    }

    /** The inner loop: the columns of one input. */
    method AddColumns(a: Attribute, start: u32, ghost before: seq<Attribute>, ghost earlier: seq<VertexAttribute>)
      returns (offset: u32)
      requires inputs == earlier + Describe(before) && start == Wrap(Total(before))
      modifies this`inputs
      ensures inputs == earlier + Describe(before + Repeat(a, Iterations(a)))
      ensures offset == Wrap(Total(before + Repeat(a, Iterations(a))))
    {
      offset := start;
      assert before + Repeat(a, 0) == before;
      for column := 0 to Iterations(a)
        invariant inputs == earlier + Describe(before + Repeat(a, column))
        invariant offset == Wrap(Total(before + Repeat(a, column)))
      {
        ColumnStep(earlier, before, a, column);
        inputs := inputs + [VertexAttribute(a.location, offset)];
        offset := Wrap(offset + ByteSize(a));
      }
    }
  }

  lemma {:induction false} ColumnStep(earlier: seq<VertexAttribute>, before: seq<Attribute>, a: Attribute, n: nat)
    ensures var d, d' := before + Repeat(a, n), before + Repeat(a, n + 1);
      && earlier + Describe(d') == (earlier + Describe(d)) + [VertexAttribute(a.location, Wrap(Total(d)))]
      && Wrap(Total(d')) == Wrap(Wrap(Total(d)) + ByteSize(a))
  {
    var d := before + Repeat(a, n);
    assert before + Repeat(a, n + 1) == d + [a];
    DescribeAppend(d, a);
    AssocAttributes(earlier, Describe(d), [VertexAttribute(a.location, Wrap(Total(d)))]);
    WrapAdd(Total(d), ByteSize(a));
  }

  lemma {:induction false} ColumnsNext(inputs: seq<Attribute>, i: nat)
    requires i < |inputs|
    ensures Columns(inputs[..i + 1]) == Columns(inputs[..i]) + Repeat(inputs[i], Iterations(inputs[i]))
  {
    assert inputs[..i + 1][..i] == inputs[..i];
  }

  lemma {:induction false} AssocAttributes(a: seq<VertexAttribute>, b: seq<VertexAttribute>, c: seq<VertexAttribute>)
    ensures (a + b) + c == a + (b + c)
  {
  }

  lemma {:induction false} WrapAdd(a: nat, b: nat)
    ensures Wrap(Wrap(a) + b) == Wrap(a + b)
  {
  }

  lemma {:induction false} DescribeAppend(columns: seq<Attribute>, a: Attribute)
    ensures Describe(columns + [a]) == Describe(columns) + [VertexAttribute(a.location, Wrap(Total(columns)))]
    ensures Total(columns + [a]) == Total(columns) + ByteSize(a)
  {
    assert (columns + [a])[..|columns|] == columns;
  }

  lemma {:induction false} MergedAppend(os: seq<Occurrence>, o: Occurrence)
    ensures Merged(os + [o]) == MergeStep(Merged(os), o)
  {
    assert (os + [o])[..|os|] == os;
  }

  lemma {:induction false} OneFurther(before: seq<Occurrence>, here: seq<Occurrence>, i: nat)
    requires i < |here|
    ensures before + here[..i + 1] == (before + here[..i]) + [here[i]]
  {
  }

  /** Merges the uniforms of one stage. */
  method MergeShader(start: Merge, shader: Shader, ghost before: seq<Occurrence>) returns (m: Merge)
    requires start == Merged(before)
    ensures m == Merged(before + StageOccurrences(shader))
  {
    m := start;
    ghost var here := StageOccurrences(shader);
    assert before + here[..0] == before;
    for index := 0 to |shader.uniforms|
      invariant m == Merged(before + here[..index])
    {
      var u := shader.uniforms[index];
      var o := Occurrence(StageOf(shader.stage), CString(u.name), u);
      OneFurther(before, here, index);
      MergedAppend(before + here[..index], o);
      if Has(m.map_, o.name) {
        var b := Get(m.map_, o.name);
        m := m.(map_ := Put(m.map_, o.name, b.(stages := b.stages + {o.stage})));
      } else {
        var b := Binding(u.binding, u.size, m.carried.stages + {o.stage}, TypeOf(u.kind, m.carried.kind));
        m := Merge(Put(m.map_, o.name, b), b);
      }
    }
    assert here[..|here|] == here;
  }

  /** The values of a map in the order of its keys. */
  method Collect(m: BindingMap) returns (values: seq<Binding>)
    ensures values == Values(m)
  {
    values := [];
    for index := 0 to |m|
      invariant values == Values(m)[..index]
    {
      values := values + [m[index].value];
    }
  }

  method MergeShaders(shaders: seq<Shader>) returns (m: Merge)
    ensures m == Merged(Occurrences(shaders))
  {
    m := START;
    for it := 0 to |shaders|
      invariant m == Merged(Occurrences(shaders[..it]))
    {
      assert shaders[..it + 1][..it] == shaders[..it];
      m := MergeShader(m, shaders[it], Occurrences(shaders[..it]));
    }
    assert shaders[..|shaders|] == shaders;
  }

  // ---------------------------------------------------------------- the descriptor pool

  datatype PoolUniform = PoolUniform(kind: u32, size: u32, binding: u32)

  function PoolEntry(u: Uniform): PoolUniform {
    PoolUniform(u.kind, u.size, u.binding)
  }

  /** The pool remembers the last uniform of each name. */
  function Pooled(m: map<Name, PoolUniform>, os: seq<Occurrence>): map<Name, PoolUniform> {
    if os == [] then m
    else Pooled(m, os[..|os| - 1])[os[|os| - 1].name := PoolEntry(os[|os| - 1].uniform)]
  }

  lemma {:induction false} PooledAppend(m: map<Name, PoolUniform>, os: seq<Occurrence>, o: Occurrence)
    ensures Pooled(m, os + [o]) == Pooled(m, os)[o.name := PoolEntry(o.uniform)]
  {
    assert (os + [o])[..|os|] == os;
  }

  /** The last occurrence of a name, or the length. */
  function Last(os: seq<Occurrence>, name: Name): (r: nat)
    ensures r <= |os|
    ensures r < |os| ==> os[r].name == name && forall i | r < i < |os| :: os[i].name != name
    ensures r == |os| ==> forall i | 0 <= i < |os| :: os[i].name != name
  {
    if os == [] then 0
    else if os[|os| - 1].name == name then |os| - 1
    else
      var k := Last(os[..|os| - 1], name);
      if k < |os| - 1 then k else |os|
  }

  /** A pool that is initialized once more knows the names it knew and those of the new file;
      of the latter it has the last declaration. */
  lemma {:induction false} PoolKeepsLast(m: map<Name, PoolUniform>, os: seq<Occurrence>, name: Name)
    ensures name in Pooled(m, os) <==> name in m || Last(os, name) < |os|
    ensures name in Pooled(m, os) ==>
      if Last(os, name) < |os| then
        var u := os[Last(os, name)].uniform;
        Pooled(m, os)[name] == PoolUniform(u.kind, u.size, u.binding)
      else Pooled(m, os)[name] == m[name]
  {
    if os != [] {
      PoolKeepsLast(m, os[..|os| - 1], name);
    }
  }

  /** The layout and the pool of a file know the same names if and only if the pool knew no
      others before; and they agree on the binding of a name of the file if and only if its
      first and its last declaration do. */
  lemma {:induction false} LayoutPoolAgree(m: map<Name, PoolUniform>, os: seq<Occurrence>, name: Name)
    ensures Has(Merged(os).map_, name) ==> name in Pooled(m, os)
    ensures name in Pooled(m, os) && !Has(Merged(os).map_, name) <==> name in m && First(os, name) == |os|
    ensures Has(Merged(os).map_, name) ==>
      && First(os, name) < |os| && Last(os, name) < |os|
      && (Pooled(m, os)[name].binding == Get(Merged(os).map_, name).binding
          <==> os[First(os, name)].uniform.binding == os[Last(os, name)].uniform.binding)
  {
    MergeExact(os, name);
    PoolKeepsLast(m, os, name);
  }

  predicate Declared(os: seq<Occurrence>, name: Name) {
    First(os, name) < |os|
  }

  predicate AllDeclared(os: seq<Occurrence>, m: map<Name, PoolUniform>) {
    forall name | name in m :: Declared(os, name)
  }

  /** Every accepted name is in the layout if and only if the file declares every name the pool
      knew before. */
  lemma {:induction false} AcceptedExactly(m: map<Name, PoolUniform>, os: seq<Occurrence>)
    ensures (forall name | name in Pooled(m, os) :: Has(Merged(os).map_, name)) <==> AllDeclared(os, m)
  {
    if AllDeclared(os, m) {
      forall name | name in Pooled(m, os) ensures Has(Merged(os).map_, name) {
        LayoutPoolAgree(m, os, name);
        assert name in m ==> Declared(os, name);
      }
    } else {
      var name :| name in m && !Declared(os, name);
      LayoutPoolAgree(m, os, name);
    }
  }

  /** A pool that was initialized for another file before accepts a name that the layout of the
      new file does not have. */
  lemma {:induction false} StaleName(a: Uniform, b: Uniform)
    requires CString(a.name) != CString(b.name)
    ensures var before := [Occurrence(VertexBit, CString(a.name), a)];
      var after := [Occurrence(VertexBit, CString(b.name), b)];
      && CString(a.name) in Pooled(Pooled(map[], before), after)
      && !Has(Merged(after).map_, CString(a.name))
  {
    var x, y := Occurrence(VertexBit, CString(a.name), a), Occurrence(VertexBit, CString(b.name), b);
    var m := Pooled(map[], [x]);
    assert [] + [x] == [x] && [] + [y] == [y];
    PooledAppend(map[], [], x);
    assert x.name in m;
    FirstAppend([], y, x.name);
    assert First([y], x.name) == 1;
    PoolKeepsLast(m, [y], x.name);
    assert x.name in Pooled(m, [y]);
    MergeExact([y], x.name);
    assert !Has(Merged([y]).map_, x.name);
  }

  /** One name with two bindings in two stages: the layout has the first, and the pool writes to
      the second. */
  lemma {:induction false} PoolDiffers(a: Uniform, b: Uniform)
    requires CString(a.name) == CString(b.name) && a.binding != b.binding
    ensures var name := CString(a.name);
      var os := [Occurrence(VertexBit, name, a), Occurrence(FragmentBit, name, b)];
      && Has(Merged(os).map_, name) && Get(Merged(os).map_, name).binding == a.binding
      && name in Pooled(map[], os) && Pooled(map[], os)[name].binding == b.binding
      && |Merged(os).map_| == 1
  {
    var name := CString(a.name);
    var x, y := Occurrence(VertexBit, name, a), Occurrence(FragmentBit, name, b);
    var os := [x, y];
    assert os == ([] + [x]) + [y] && [] + [x] == [x];
    FirstAppend([], x, name);
    FirstAppend([x], y, name);
    MergeExact([x], name);
    MergeExact(os, name);
    PooledAppend(map[], [x], y);
    MergedAppend([], x);
    MergedAppend([x], y);
    PutSorted([], name, Get(Merged([x]).map_, name));
    PutSorted(Merged([x]).map_, name, Get(Merged(os).map_, name));
    StepIsPut(START, x);
    StepIsPut(Merged([x]), y);
  }

  /** Every stage that declares a name gives it the same binding. */
  predicate Consistent(os: seq<Occurrence>) {
    forall i, j | 0 <= i < |os| && 0 <= j < |os| && os[i].name == os[j].name ::
      os[i].uniform.binding == os[j].uniform.binding
  }

  /** In a consistent file, every name of the file that a descriptor accepts is written to a
      binding that the descriptor set layout has, namely the one made for that name. */
  lemma {:induction false} AcceptedNamesAreBound(m: map<Name, PoolUniform>, os: seq<Occurrence>, name: Name)
    returns (i: nat)
    requires Consistent(os) && name in Pooled(m, os) && First(os, name) < |os|
    ensures var layout := Values(Merged(os).map_);
      && i < |layout| && Merged(os).map_[i].key == name
      && layout[i].binding == Pooled(m, os)[name].binding
  {
    MergeExact(os, name);
    LayoutPoolAgree(m, os, name);
    i := LowerBound(Merged(os).map_, name);
  }

  class DescriptorPool {
    var map_: map<Name, PoolUniform>

    constructor ()
      ensures map_ == map[]
    {
      map_ := map[];
    }

    /** Enters the uniforms of all stages; later ones replace earlier ones. */
    method Initialize(shaders: seq<Shader>)
      modifies this
      ensures map_ == Pooled(old(map_), Occurrences(shaders))
    {
      for it := 0 to |shaders|
        invariant map_ == Pooled(old(map_), Occurrences(shaders[..it]))
      {
        assert shaders[..it + 1][..it] == shaders[..it];
        ghost var before, here := Occurrences(shaders[..it]), StageOccurrences(shaders[it]);
        assert before + here[..0] == before;
        for index := 0 to |shaders[it].uniforms|
          invariant map_ == Pooled(old(map_), before + here[..index])
        {
          var u := shaders[it].uniforms[index];
          OneFurther(before, here, index);
          PooledAppend(old(map_), before + here[..index], here[index]);
          map_ := map_[CString(u.name) := PoolUniform(u.kind, u.size, u.binding)];
        }
        assert here[..|here|] == here;
      }
      assert shaders[..|shaders|] == shaders;
    }

    /** The binding a descriptor of this pool writes for a name, if it accepts the name. */
    function Target(name: Name): (r: Option<u32>)
      reads this
      ensures r.Some? <==> CString(name) in map_
    {
      if CString(name) in map_ then Some(map_[CString(name)].binding) else None
    }
  }
}
