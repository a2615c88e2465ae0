/**
 Mark identities that do not depend on geometry.  Hashes are treated as injective: a hash is the
 record of the fields that were hashed.
 */
module StableMarks {
  import opened Common

  datatype Bounds = Bounds(x: real, y: real, width: real, height: real)

  /** What a producer reports about one element; empty strings are missing values. */
  datatype RawMark = RawMark(role: string, structuralKey: string, selector: string, semantic: string, caption: string, source: string,
                             bounds: Option<Bounds>, confidence: real)

  /** The structural key, or the slot number for an element that has no key and no selector. */
  datatype Key = Named(text: string) | Slot(index: nat)

  datatype Identity = Identity(scope: string, role: string, key: Key)

  datatype Semantics = Semantics(role: string, input: string, source: string)

  datatype StableMark = StableMark(markId: Identity, role: string, semantic: Semantics, source: string, bounds: Option<Bounds>,
                                   confidence: real, observedAt: real)

  function RoleOf(r: RawMark): string
  {
    if r.role == "" then "element" else r.role
  }

  function KeyOf(r: RawMark, index: nat): Key
  {
    if r.structuralKey != "" then Named(r.structuralKey) else if r.selector != "" then Named(r.selector) else Slot(index)
  }

  function SemanticInput(r: RawMark): string
  {
    if r.semantic != "" then r.semantic
    else if r.caption != "" then r.caption
    else if r.source != "" then r.source
    else RoleOf(r)
  }

  function Clamp(x: real): real
  {
    if x < 0.0 then 0.0 else if x > 1.0 then 1.0 else x
  }

  function MarkOf(r: RawMark, scope: string, index: nat, now: real): StableMark
  {
    StableMark(Identity(scope, RoleOf(r), KeyOf(r, index)), RoleOf(r), Semantics(RoleOf(r), SemanticInput(r), r.source),
               r.source, r.bounds, Clamp(r.confidence), now)
  }

  /** `build_stable_marks`. */
  method BuildStableMarks(values: seq<RawMark>, scope: string, now: real) returns (marks: seq<StableMark>)
    ensures |marks| == |values| && forall i :: 0 <= i < |values| ==> marks[i] == MarkOf(values[i], scope, i, now)
  {
    marks := [];
    for index := 0 to |values|
      invariant |marks| == index && forall i :: 0 <= i < index ==> marks[i] == MarkOf(values[i], scope, i, now)
    {
      marks := marks + [MarkOf(values[index], scope, index, now)];
    }
  }

  datatype Compact = Compact(markId: Identity, semantic: Semantics)

  /** `stable_mark_digest`: what is hashed of a list of marks. */
  function Digest(marks: seq<StableMark>): seq<Compact>
  {
    seq(|marks|, i requires 0 <= i < |marks| => Compact(marks[i].markId, marks[i].semantic))
  }

  ghost predicate BuiltFrom(marks: seq<StableMark>, values: seq<RawMark>, scope: string, now: real)
  {
    |marks| == |values| && forall i :: 0 <= i < |values| ==> marks[i] == MarkOf(values[i], scope, i, now)
  }

  /** Two elements of the same slot that mean the same thing: same identity, same visible content. */
  ghost predicate SameMeaning(a: RawMark, b: RawMark, index: nat)
  {
    RoleOf(a) == RoleOf(b) && KeyOf(a, index) == KeyOf(b, index) && SemanticInput(a) == SemanticInput(b) && a.source == b.source
  }

  /** Digests agree exactly when the elements mean the same; where they are on the screen, how sure
      the producer was and when it looked play no part. */
  lemma DigestIgnoresGeometry(a: seq<StableMark>, b: seq<StableMark>, va: seq<RawMark>, vb: seq<RawMark>, scope: string, s: real, t: real)
    requires BuiltFrom(a, va, scope, s) && BuiltFrom(b, vb, scope, t)
    ensures Digest(a) == Digest(b) <==> |va| == |vb| && forall i :: 0 <= i < |va| ==> SameMeaning(va[i], vb[i], i)
  {
    if Digest(a) == Digest(b) {
      assert |a| == |Digest(a)| == |Digest(b)| == |b|;
      forall i | 0 <= i < |va|
        ensures SameMeaning(va[i], vb[i], i)
      {
        assert Digest(a)[i] == Digest(b)[i];
      }
    }
    if |va| == |vb| && forall i :: 0 <= i < |va| ==> SameMeaning(va[i], vb[i], i) {
      forall i | 0 <= i < |va|
        ensures Digest(a)[i] == Digest(b)[i]
      {
        assert SameMeaning(va[i], vb[i], i);
      }
    }
  }

  /** Marks built in one observation have distinct ids exactly when no two elements share both role
      and structural key. */
  lemma IdsAreDistinctIffKeysAre(marks: seq<StableMark>, values: seq<RawMark>, scope: string, now: real)
    requires BuiltFrom(marks, values, scope, now)
    ensures (forall i, j :: 0 <= i < j < |marks| ==> marks[i].markId != marks[j].markId)
       <==> forall i, j :: 0 <= i < j < |values| ==> RoleOf(values[i]) != RoleOf(values[j]) || KeyOf(values[i], i) != KeyOf(values[j], j)
  {
  }

  /** The first of some texts that is not empty. */
  function FirstText(texts: seq<string>): string
  {
    if texts == [] then "" else if texts[0] != "" then texts[0] else FirstText(texts[1..])
  }

  lemma FirstOfTwo(a: string, b: string)
    ensures FirstText([a, b]) == if a != "" then a else b
  {
    assert [a, b][1..] == [b] && [b][1..] == [];
    assert FirstText([b]) == b;
  }

  lemma FirstOfFour(a: string, b: string, c: string, d: string)
    ensures FirstText([a, b, c, d]) == if a != "" then a else if b != "" then b else if c != "" then c else d
  {
    assert [a, b, c, d][1..] == [b, c, d] && [b, c, d][1..] == [c, d];
    FirstOfTwo(c, d);
    assert FirstText([b, c, d]) == if b != "" then b else FirstText([c, d]);
  }

  /** What enters identity and meaning: an element without a role counts as one of role "element"; its key
      is the structural key or else the selector, or its slot if it has neither; and it means the first
      of semantic signature, label, source and role that is given. */
  lemma IdentityAndMeaning(r: RawMark, scope: string, index: nat, now: real)
    ensures var m := MarkOf(r, scope, index, now);
            var role := FirstText([r.role, "element"]);
            var name := FirstText([r.structuralKey, r.selector]);
            && m.role == role && m.source == r.source && m.bounds == r.bounds && m.observedAt == now
            && m.markId == Identity(scope, role, if name != "" then Named(name) else Slot(index))
            && m.semantic == Semantics(role, FirstText([r.semantic, r.caption, r.source, role]), r.source)
            && 0.0 <= m.confidence <= 1.0 && (0.0 <= r.confidence <= 1.0 ==> m.confidence == r.confidence)
  {
    FirstOfTwo(r.role, "element");
    FirstOfTwo(r.structuralKey, r.selector);
    FirstOfFour(r.semantic, r.caption, r.source, RoleOf(r));
  }
}
