/** The attachments, references and subpasses that a render pass collects before it is
    made. */
module Subpasses {
  import opened Wrappers
  import opened Layouts

  /** `D24UnormS8Uint` is the format of every depth attachment. */
  datatype Format = D24UnormS8Uint | ColorFormat(code: nat)

  datatype ClearValue = DepthClear(depth: real) | ColorClear(red: real, green: real, blue: real, alpha: real)

  datatype Attachment = Attachment(format: Format, finalLayout: VkLayout)

  /** A color attachment as the client describes it, with its clear color. */
  datatype Requested = Requested(attachment: Attachment, red: real, green: real, blue: real, alpha: real) {
    function Clear(): (c: ClearValue)
      ensures c.ColorClear? && c.red == red && c.green == green && c.blue == blue && c.alpha == alpha
    {
      ColorClear(red, green, blue, alpha)
    }
  }

  datatype Reference = Reference(attachment: nat, layout: VkLayout)

  /** A subpass points into the lists of color and depth references. */
  datatype Subpass = Subpass(colorOffset: nat, colorCount: nat, depthOffset: Option<nat>)

  datatype Dependency = Dependency(src: nat, dst: nat)

  const DEPTH_ATTACHMENT := Attachment(D24UnormS8Uint, VkDepthStencil)

  function End(s: Subpass): nat {
    s.colorOffset + s.colorCount
  }

  /** The color slices follow each other from 0 up to `total`, none empty. */
  predicate Tiled(subpasses: seq<Subpass>, total: nat) {
    && total == (if subpasses == [] then 0 else End(subpasses[|subpasses| - 1]))
    && (subpasses != [] ==> subpasses[0].colorOffset == 0)
    && (forall i | 0 <= i < |subpasses| :: subpasses[i].colorCount > 0)
    && (forall i | 0 < i < |subpasses| :: End(subpasses[i - 1]) == subpasses[i].colorOffset)
  }

  /** Every color reference belongs to the slice of exactly one subpass. */
  lemma {:induction false} SliceOwner(subpasses: seq<Subpass>, total: nat, c: nat) returns (owner: nat)
    requires Tiled(subpasses, total) && c < total
    ensures owner < |subpasses| && subpasses[owner].colorOffset <= c < End(subpasses[owner])
    ensures forall i | 0 <= i < |subpasses| && i != owner ::
              !(subpasses[i].colorOffset <= c < End(subpasses[i]))
  {
    var n := |subpasses| - 1;
    var front := subpasses[..n];
    assert Tiled(front, subpasses[n].colorOffset);
    if c < subpasses[n].colorOffset {
      owner := SliceOwner(front, subpasses[n].colorOffset, c);
      forall i | 0 <= i < |subpasses| && i != owner
        ensures !(subpasses[i].colorOffset <= c < End(subpasses[i]))
      {
        assert i < n ==> subpasses[i] == front[i];
      }
    } else {
      owner := n;
      forall i | 0 <= i < n ensures End(subpasses[i]) <= c {
        SliceInRange(front, subpasses[n].colorOffset, i);
      }
    }
  }

  lemma {:induction false} SliceInRange(subpasses: seq<Subpass>, total: nat, i: nat)
    requires Tiled(subpasses, total) && i < |subpasses|
    ensures End(subpasses[i]) <= total
  {
    var n := |subpasses| - 1;
    if i < n {
      SliceInRange(subpasses[..n], subpasses[n].colorOffset, i);
    }
  }

  function Targets(references: seq<Reference>): (r: seq<nat>)
    ensures |r| == |references| && forall k | 0 <= k < |r| :: r[k] == references[k].attachment
  {
    seq(|references|, k requires 0 <= k < |references| => references[k].attachment)
  }

  lemma {:induction false} TargetsAppend(references: seq<Reference>, r: Reference)
    ensures Targets(references + [r]) == Targets(references) + [r.attachment]
  {
  }

  /** Every attachment is named by exactly one color or depth reference. */
  ghost predicate Partition(color: seq<Reference>, depth: seq<Reference>, all: seq<Reference>) {
    multiset(Targets(color)) + multiset(Targets(depth)) == multiset(Targets(all))
  }

  lemma {:induction false} PartitionColor(color: seq<Reference>, depth: seq<Reference>, all: seq<Reference>, r: Reference)
    requires Partition(color, depth, all)
    ensures Partition(color + [r], depth, all + [r])
  {
    TargetsAppend(color, r);
    TargetsAppend(all, r);
  }

  lemma {:induction false} PartitionDepth(color: seq<Reference>, depth: seq<Reference>, all: seq<Reference>, r: Reference)
    requires Partition(color, depth, all)
    ensures Partition(color, depth + [r], all + [r])
  {
    TargetsAppend(depth, r);
    TargetsAppend(all, r);
  }

  /** Reference k names attachment k. */
  ghost predicate InSequence(references: seq<Reference>) {
    forall k | 0 <= k < |references| :: references[k].attachment == k
  }

  /** The depth pointer of a subpass is what its client asked for: it leads to the reference
      made for this subpass, or nowhere if the subpass has no depth attachment. */
  predicate OwnDepth(pointer: Option<nat>, depth: seq<Reference>, own: Option<Reference>) {
    match own
    case Some(r) => pointer.Some? && pointer.value < |depth| && depth[pointer.value] == r
    case None => pointer.None?
  }

  /** The pointer a list of depth references gives once it has storage. */
  function Pointer(stored: bool): Option<nat> {
    if stored then Some(0) else None
  }

  /** That pointer is the own one if and only if there was no depth reference and, for a
      subpass that asks for none, never had been. */
  lemma {:induction false} FirstDepthOnly(before: seq<Reference>, stored: bool, own: Option<Reference>)
    requires before != [] ==> stored
    requires own.Some? ==> forall k | 0 <= k < |before| :: before[k].attachment < own.value.attachment
    ensures OwnDepth(Pointer(stored || own.Some?), before + (if own.Some? then [own.value] else []), own)
            <==> if own.Some? then before == [] else !stored
  {
    var after := before + (if own.Some? then [own.value] else []);
    if before != [] {
      assert after[0] == before[0];
    }
  }

  lemma {:induction false} TiledAppend(subpasses: seq<Subpass>, s: Subpass)
    requires Tiled(subpasses, s.colorOffset) && s.colorCount > 0
    ensures Tiled(subpasses + [s], End(s))
  {
    assert (subpasses + [s])[..|subpasses|] == subpasses;
  }

  /** A depth reference names a depth attachment that is cleared as one. */
  predicate DepthOk(attachments: seq<Attachment>, clear: seq<ClearValue>, r: Reference) {
    && r.attachment < |attachments| == |clear|
    && attachments[r.attachment] == Attachment(D24UnormS8Uint, VkDepthStencil) && clear[r.attachment].DepthClear?
  }

  predicate ColorOk(attachments: seq<Attachment>, clear: seq<ClearValue>, r: Reference) {
    r.attachment < |attachments| == |clear| && clear[r.attachment].ColorClear?
  }

  /** The lists agree: one clear value and one reference per attachment, reference k names
      attachment k, and every attachment is named exactly once as color or depth. */
  ghost predicate ListsAgree(
    clear: seq<ClearValue>, attachments: seq<Attachment>, all: seq<Reference>, color: seq<Reference>,
    depth: seq<Reference>)
  {
    && |clear| == |attachments| == |all|
    && InSequence(all)
    && Partition(color, depth, all)
    && |color| + |depth| == |all|
    && (forall k | 0 <= k < |depth| :: DepthOk(attachments, clear, depth[k]))
    && (forall k | 0 <= k < |color| :: ColorOk(attachments, clear, color[k]))
  }

  lemma {:induction false} AddedDepth(clear: seq<ClearValue>, attachments: seq<Attachment>, all: seq<Reference>,
                   color: seq<Reference>, depth: seq<Reference>, depthClear: real)
    requires ListsAgree(clear, attachments, all, color, depth)
    ensures var r := Reference(|attachments|, VkDepthStencil);
      ListsAgree(clear + [DepthClear(depthClear)], attachments + [DEPTH_ATTACHMENT], all + [r], color, depth + [r])
  {
    var r := Reference(|attachments|, VkDepthStencil);
    PartitionDepth(color, depth, all, r);
    var c, a := clear + [DepthClear(depthClear)], attachments + [DEPTH_ATTACHMENT];
    forall k | 0 <= k < |color| ensures ColorOk(a, c, color[k]) {
      assert ColorOk(attachments, clear, color[k]);
    }
    forall k | 0 <= k < |depth| ensures DepthOk(a, c, depth[k]) {
      assert DepthOk(attachments, clear, depth[k]);
    }
  }

  lemma {:induction false} AddedColor(clear: seq<ClearValue>, attachments: seq<Attachment>, all: seq<Reference>,
                   color: seq<Reference>, depth: seq<Reference>, q: Requested)
    requires ListsAgree(clear, attachments, all, color, depth)
    ensures var r := Reference(|attachments|, q.attachment.finalLayout);
      ListsAgree(clear + [q.Clear()], attachments + [q.attachment], all + [r], color + [r], depth)
  {
    var r := Reference(|attachments|, q.attachment.finalLayout);
    PartitionColor(color, depth, all, r);
    var c, a := clear + [q.Clear()], attachments + [q.attachment];
    forall k | 0 <= k < |color| ensures ColorOk(a, c, color[k]) {
      assert ColorOk(attachments, clear, color[k]);
    }
    forall k | 0 <= k < |depth| ensures DepthOk(a, c, depth[k]) {
      assert DepthOk(attachments, clear, depth[k]);
    }
  }

  /** The attachments, clear values and color references of a list of requests, when `base`
      attachments are there already. */
  function Attachments(requested: seq<Requested>): (r: seq<Attachment>)
    ensures |r| == |requested| && forall i | 0 <= i < |r| :: r[i] == requested[i].attachment
  {
    seq(|requested|, i requires 0 <= i < |requested| => requested[i].attachment)
  }

  function Clears(requested: seq<Requested>): (r: seq<ClearValue>)
    ensures |r| == |requested| && forall i | 0 <= i < |r| :: r[i] == requested[i].Clear()
  {
    seq(|requested|, i requires 0 <= i < |requested| => requested[i].Clear())
  }

  function References(requested: seq<Requested>, base: nat): (r: seq<Reference>)
    ensures |r| == |requested|
    ensures forall i | 0 <= i < |r| :: r[i] == Reference(base + i, requested[i].attachment.finalLayout)
  {
    seq(|requested|, i requires 0 <= i < |requested| => Reference(base + i, requested[i].attachment.finalLayout))
  }

  lemma {:induction false} Assoc<T>(a: seq<T>, b: seq<T>, c: seq<T>)
    ensures a + (b + c) == (a + b) + c
  {
  }

  lemma {:induction false} OneMore(requested: seq<Requested>, i: nat, base: nat)
    requires i < |requested|
    ensures Attachments(requested[..i + 1]) == Attachments(requested[..i]) + [requested[i].attachment]
    ensures Clears(requested[..i + 1]) == Clears(requested[..i]) + [requested[i].Clear()]
    ensures References(requested[..i + 1], base) ==
            References(requested[..i], base) + [Reference(base + i, requested[i].attachment.finalLayout)]
  {
  }

  /** The lists after one more subpass, with its depth attachment first. */
  function AttachmentsAfter(attachments: seq<Attachment>, requested: seq<Requested>, depthEnable: bool): seq<Attachment> {
    attachments + (if depthEnable then [DEPTH_ATTACHMENT] else []) + Attachments(requested)
  }

  function ClearsAfter(clear: seq<ClearValue>, requested: seq<Requested>, depthEnable: bool, depthClear: real): seq<ClearValue> {
    clear + (if depthEnable then [DepthClear(depthClear)] else []) + Clears(requested)
  }

  function ColorsAfter(color: seq<Reference>, requested: seq<Requested>, count: nat, depthEnable: bool): (r: seq<Reference>)
    ensures |r| == |color| + |requested|
  {
    color + References(requested, if depthEnable then count + 1 else count)
  }

  function DepthsAfter(depth: seq<Reference>, count: nat, depthEnable: bool): seq<Reference> {
    depth + (if depthEnable then [Reference(count, VkDepthStencil)] else [])
  }

  /** Of the subpasses a client depends on, `dst` is the last one below `known`, or 0 if there
      is none. */
  ghost predicate LastKnown(deps: seq<nat>, known: nat, dst: nat) {
    || (exists k :: 0 <= k < |deps| && deps[k] < known && dst == deps[k]
                    && forall l | k < l < |deps| :: deps[l] >= known)
    || (dst == 0 && forall l | 0 <= l < |deps| :: deps[l] >= known)
  }

  lemma {:induction false} LastKnownNext(deps: seq<nat>, i: nat, known: nat, dst: nat)
    requires i < |deps| && LastKnown(deps[..i], known, dst)
    ensures LastKnown(deps[..i + 1], known, if deps[i] < known then deps[i] else dst)
  {
    var front, more := deps[..i], deps[..i + 1];
    assert more[i] == deps[i] && forall l | 0 <= l < i :: more[l] == front[l];
    if deps[i] < known {
      assert LastKnown(more, known, more[i]);
    } else if !(dst == 0 && forall l | 0 <= l < i :: front[l] >= known) {
      var k :| 0 <= k < i && front[k] < known && dst == front[k]
               && forall l | k < l < i :: front[l] >= known;
      assert more[k] == front[k];
    }
  }

  /** The last subpass named is the one recorded if and only if its number is below the number of
      dependencies so far, or zero: the code compares it with the dependencies, not with the
      subpasses. */
  lemma {:induction false} LastNamedRecorded(deps: seq<nat>, known: nat, dst: nat)
    requires deps != [] && LastKnown(deps, known, dst)
    ensures dst == deps[|deps| - 1] <==> deps[|deps| - 1] < known || deps[|deps| - 1] == 0
  {
    var last := |deps| - 1;
    if !(dst == 0 && forall l | 0 <= l < |deps| :: deps[l] >= known) {
      var k :| 0 <= k < |deps| && deps[k] < known && dst == deps[k]
               && forall l | k < l < |deps| :: deps[l] >= known;
      assert k < last ==> deps[last] >= known;
    }
  }

  /** The dependencies after a subpass that was to be number `src`: at most one more, from this
      subpass to the last one named that exists. */
  ghost predicate Depends(before: seq<Dependency>, after: seq<Dependency>, src: nat, deps: seq<nat>) {
    if deps == [] then after == before
    else
      && |after| == |before| + 1 && after[..|before|] == before
      && after[|before|].src == src && LastKnown(deps, |before|, after[|before|].dst)
  }

  class PassLayout {
    var clearColors: seq<ClearValue>
    var attachments: seq<Attachment>
    var references: seq<Reference>
    var colorReferences: seq<Reference>
    var depthReferences: seq<Reference>
    var subpasses: seq<Subpass>
    var dependencies: seq<Dependency>
    var depthStored: bool   // the list of depth references has storage, which it keeps

    ghost predicate Lists()
      reads this
    {
      ListsAgree(clearColors, attachments, references, colorReferences, depthReferences)
    }

    ghost predicate Valid()
      reads this
    {
      Lists() && Tiled(subpasses, |colorReferences|) && (depthReferences != [] ==> depthStored)
    }

    constructor ()
      ensures Valid() && attachments == [] && subpasses == [] && dependencies == []
      ensures colorReferences == [] && depthReferences == [] && !depthStored
    {
      clearColors, attachments, references, colorReferences, depthReferences := [], [], [], [], [];
      subpasses, dependencies, depthStored := [], [], false;
    }

    /** Empties all lists; the storage of the depth references remains. */
    method Reset()
      requires Valid()
      modifies this
      ensures Valid() && depthStored == old(depthStored)
      ensures clearColors == [] && attachments == [] && references == [] && colorReferences == []
      ensures depthReferences == [] && subpasses == [] && dependencies == []
    {
      clearColors, attachments, references, colorReferences, depthReferences := [], [], [], [], [];
      subpasses, dependencies := [], [];
    }

    /** Appends a depth attachment with its clear value and its reference. */
    method AddDepth(clear: real)
      requires Lists()
      modifies this`clearColors, this`attachments, this`references, this`depthReferences, this`depthStored
      ensures Lists() && depthStored
      ensures attachments == old(attachments) + [DEPTH_ATTACHMENT]
      ensures clearColors == old(clearColors) + [DepthClear(clear)]
      ensures depthReferences == old(depthReferences) + [Reference(|old(attachments)|, VkDepthStencil)]
    {
      AddedDepth(clearColors, attachments, references, colorReferences, depthReferences, clear);
      var r := Reference(|attachments|, DEPTH_ATTACHMENT.finalLayout);
      clearColors := clearColors + [DepthClear(clear)];
      attachments := attachments + [DEPTH_ATTACHMENT];
      references := references + [r];
      depthReferences, depthStored := depthReferences + [r], true;
    }

    /** Appends the color attachments of a subpass with their clear values and references,
        and counts them. */
    method AddColors(requested: seq<Requested>) returns (colorCount: nat)
      requires Lists()
      modifies this`clearColors, this`attachments, this`references, this`colorReferences
      ensures Lists() && colorCount == |requested|
      ensures attachments == old(attachments) + Attachments(requested)
      ensures clearColors == old(clearColors) + Clears(requested)
      ensures colorReferences == old(colorReferences) + References(requested, |old(attachments)|)
    {
      colorCount := 0;
      for index := 0 to |requested|
        invariant Lists() && colorCount == index
        invariant attachments == old(attachments) + Attachments(requested[..index])
        invariant clearColors == old(clearColors) + Clears(requested[..index])
        invariant colorReferences == old(colorReferences) + References(requested[..index], |old(attachments)|)
      {
        var q := requested[index];
        OneMore(requested, index, |old(attachments)|);
        Assoc(old(attachments), Attachments(requested[..index]), [q.attachment]);
        Assoc(old(clearColors), Clears(requested[..index]), [q.Clear()]);
        Assoc(old(colorReferences), References(requested[..index], |old(attachments)|),
              [Reference(|attachments|, q.attachment.finalLayout)]);
        AddColor(q);
        colorCount := colorCount + 1;
      }
      assert requested[..|requested|] == requested;
    }

    /** Appends one color attachment with its clear value and its reference. */
    method AddColor(q: Requested)
      requires Lists()
      modifies this`clearColors, this`attachments, this`references, this`colorReferences
      ensures Lists()
      ensures attachments == old(attachments) + [q.attachment]
      ensures clearColors == old(clearColors) + [q.Clear()]
      ensures colorReferences == old(colorReferences) + [Reference(|old(attachments)|, q.attachment.finalLayout)]
    {
      AddedColor(clearColors, attachments, references, colorReferences, depthReferences, q);
      var r := Reference(|attachments|, q.attachment.finalLayout);
      clearColors := clearColors + [q.Clear()];
      attachments := attachments + [q.attachment];
      references := references + [r];
      colorReferences := colorReferences + [r];
    }

    /** Appends the depth attachment, if any, and then the color attachments. */
    method AddAttachments(requested: seq<Requested>, depthEnable: bool, depthClear: real) returns (colorCount: nat)
      requires Lists()
      modifies this`clearColors, this`attachments, this`references, this`colorReferences, this`depthReferences
      modifies this`depthStored
      ensures Lists() && colorCount == |requested| && depthStored == (old(depthStored) || depthEnable)
      ensures attachments == AttachmentsAfter(old(attachments), requested, depthEnable)
      ensures clearColors == ClearsAfter(old(clearColors), requested, depthEnable, depthClear)
      ensures colorReferences == ColorsAfter(old(colorReferences), requested, |old(attachments)|, depthEnable)
      ensures depthReferences == DepthsAfter(old(depthReferences), |old(attachments)|, depthEnable)
    {
      if depthEnable {
        AddDepth(depthClear);
      } else {
        assert attachments + [] == attachments && clearColors + [] == clearColors;
      }
      colorCount := AddColors(requested);
    }

    /** Adds a subpass with its depth attachment, if any, before its color attachments.
        The color slice is its own.  The depth pointer leads to where the first depth
        reference is or was.  For a subpass that asks for depth it is its own if and only if
        there is no depth attachment yet; for one that asks for none, if and only if there
        never was one, a reset notwithstanding. */
    method AddSubpass(requested: seq<Requested>, deps: seq<nat>, depthEnable: bool, depthClear: real)
      requires Valid()
      modifies this
      ensures Valid()
      ensures attachments == AttachmentsAfter(old(attachments), requested, depthEnable)
      ensures clearColors == ClearsAfter(old(clearColors), requested, depthEnable, depthClear)
      ensures colorReferences == ColorsAfter(old(colorReferences), requested, |old(attachments)|, depthEnable)
      ensures depthReferences == DepthsAfter(old(depthReferences), |old(attachments)|, depthEnable)
      ensures subpasses == old(subpasses) +
        (if requested == [] then []
         else [Subpass(|old(colorReferences)|, |requested|, Pointer(depthStored))])
      ensures depthStored == (old(depthStored) || depthEnable)
      ensures requested != [] ==>
        (OwnDepth(subpasses[|old(subpasses)|].depthOffset, depthReferences,
                  if depthEnable then Some(Reference(|old(attachments)|, VkDepthStencil)) else None)
         <==> if depthEnable then old(depthReferences) == [] else !old(depthStored))
      ensures Depends(old(dependencies), dependencies, |old(subpasses)|, deps)
    {
      var srcSubpass := |subpasses|;
      DepthPointer(depthEnable);
      var colorCount := AddAttachments(requested, depthEnable, depthClear);
      var subpass := Subpass(|colorReferences| - colorCount, colorCount,
                             if depthStored then Some(0) else None);
      Close(subpass, |requested| != 0, srcSubpass, deps);
    }

    /** Whether the pointer of the next subpass is its own. */
    lemma {:induction false} DepthPointer(depthEnable: bool)
      requires Valid()
      ensures var own := if depthEnable then Some(Reference(|attachments|, VkDepthStencil)) else None;
        OwnDepth(Pointer(depthStored || depthEnable), DepthsAfter(depthReferences, |attachments|, depthEnable), own)
        <==> if depthEnable then depthReferences == [] else !depthStored
    {
      var own := if depthEnable then Some(Reference(|attachments|, VkDepthStencil)) else None;
      assert forall k | 0 <= k < |depthReferences| :: DepthOk(attachments, clearColors, depthReferences[k]);
      FirstDepthOnly(depthReferences, depthStored, own);
    }

    /** Appends the subpass and its dependency, each if it says something. */
    method Close(subpass: Subpass, isSubpass: bool, src: nat, deps: seq<nat>)
      requires Tiled(subpasses, subpass.colorOffset) && (isSubpass <==> subpass.colorCount > 0)
      requires Lists() && End(subpass) == |colorReferences| && (depthReferences != [] ==> depthStored)
      modifies this`subpasses, this`dependencies
      ensures Valid()
      ensures subpasses == old(subpasses) + (if isSubpass then [subpass] else [])
      ensures Depends(old(dependencies), dependencies, src, deps)
    {
      var dependency := MakeDependency(src, deps);
      if isSubpass {
        TiledAppend(subpasses, subpass);
        subpasses := subpasses + [subpass];
      } else {
        assert subpasses + [] == subpasses;
      }
      if |deps| != 0 {
        dependencies := dependencies + [dependency];
      }
    }

    /** All the dependencies a client names are written into one structure, so the last
        one that exists wins. */
    method MakeDependency(src: nat, deps: seq<nat>) returns (d: Dependency)
      ensures d.src == if deps == [] then 0 else src
      ensures LastKnown(deps, |dependencies|, d.dst)
    {
      d := Dependency(0, 0);
      for index := 0 to |deps|
        invariant d.src == if index == 0 then 0 else src
        invariant LastKnown(deps[..index], |dependencies|, d.dst)
      {
        LastKnownNext(deps, index, |dependencies|, d.dst);
        d := d.(src := src);
        if deps[index] < |dependencies| {
          d := d.(dst := deps[index]);
        }
      }
      assert deps[..|deps|] == deps;
    }
  }

  /** Two subpasses with depth: the second draws into the depth attachment of the first. */
  method SecondDepthShared(color: Requested) returns (p: PassLayout)
    ensures p.Valid() && |p.subpasses| == 2 && |p.depthReferences| == 2
    ensures OwnDepth(p.subpasses[0].depthOffset, p.depthReferences, Some(p.depthReferences[0]))
    ensures OwnDepth(p.subpasses[1].depthOffset, p.depthReferences, Some(p.depthReferences[0]))
    ensures p.depthReferences[1] == Reference(2, VkDepthStencil)
    ensures !OwnDepth(p.subpasses[1].depthOffset, p.depthReferences, Some(p.depthReferences[1]))
  {
    p := new PassLayout();
    p.AddSubpass([color], [], true, 1.0);
    p.AddSubpass([color], [], true, 1.0);
  }

  /** A subpass without depth after one with depth: it gets the other's depth attachment. */
  method DepthNotAskedFor(color: Requested) returns (p: PassLayout)
    ensures p.Valid() && |p.subpasses| == 2 && |p.depthReferences| == 1
    ensures OwnDepth(p.subpasses[1].depthOffset, p.depthReferences, Some(p.depthReferences[0]))
    ensures !OwnDepth(p.subpasses[1].depthOffset, p.depthReferences, None)
  {
    p := new PassLayout();
    p.AddSubpass([color], [], true, 1.0);
    p.AddSubpass([color], [], false, 0.0);
  }

  /** The third of three subpasses depends on the second, and is recorded to depend on the first. */
  method DependencyMisdirected(color: Requested) returns (p: PassLayout)
    ensures p.Valid() && |p.subpasses| == 3
    ensures p.dependencies == [Dependency(1, 0), Dependency(2, 0)]
  {
    p := new PassLayout();
    p.AddSubpass([color], [], false, 0.0);
    p.AddSubpass([color], [0], false, 0.0);
    LastNamedRecorded([0], 0, p.dependencies[0].dst);
    assert p.dependencies == [Dependency(1, 0)];
    p.AddSubpass([color], [1], false, 0.0);
    assert p.dependencies[..1][0] == Dependency(1, 0);
  }

  /** A subpass without depth after a reset: it keeps the pointer into the emptied list. */
  method StaleDepth(color: Requested) returns (p: PassLayout)
    ensures p.Valid() && |p.subpasses| == 1 && p.depthReferences == []
    ensures p.subpasses[0].depthOffset == Some(0)
    ensures !OwnDepth(p.subpasses[0].depthOffset, p.depthReferences, None)
  {
    p := new PassLayout();
    p.AddSubpass([color], [], true, 1.0);
    p.Reset();
    p.AddSubpass([color], [], false, 0.0);
  }
}
