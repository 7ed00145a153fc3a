/** Cross-modal evidence packets: canonical form, identity, and independence. */
module Evidence {
  import opened Options
  import opened Sorting
  import opened Sublists
  import opened Text

  datatype Error = EmptyField | UnknownClass | UnknownModality | BadConfidence | NaiveTime | NoEvidence
                 | TooMuchEvidence | TooManyContradictions | BadCeiling

  datatype Result<+T> = Ok(value: T) | Err(error: Error) {
    predicate IsFailure() { Err? }
    function PropagateFailure<U>(): Result<U> requires Err? { Err(error) }
    function Extract(): T requires Ok? { value }
  }

  const CLASSES: set<string> := {
    "operational_claim", "verification_claim", "archive_reference", "ais_observation", "ais_derived", "dsc_message",
    "navtex_message", "radio_signal", "audio_artifact", "audio_transcript", "satellite_observation"
  }
  const MODALITIES: set<string> := {"humanitarian", "ais", "radio", "audio", "satellite", "documentary"}
  const MAX_EVIDENCE := 128
  const MAX_CONTRADICTIONS := 32

  // ---------------------------------------------------------------- fields

  function Truncated(s: string, max: nat): string {
    if |s| <= max then s else s[..max]
  }

  /** `_required`: stripped, refused when empty, then cut. */
  function Required(value: string, max: nat): Result<string> {
    var text := Strip(value);
    if text == "" then Err(EmptyField) else Ok(Truncated(text, max))
  }

  /** Cutting the stripped value to the limit leaves no whitespace at its end. */
  predicate CutClean(value: string, max: nat)
    requires max > 0
  {
    |Strip(value)| <= max || !IsSpace(Strip(value)[max-1])
  }

  /** The cut can leave whitespace at the end; normalising again then changes the field, and only then. */
  lemma RequiredIsStableIff(value: string, max: nat)
    requires max > 0 && Required(value, max).Ok?
    ensures var r := Required(value, max).value;
      Required(r, max).Ok? && (Required(r, max) == Ok(r) <==> CutClean(value, max))
  {
    var text, r := Strip(value), Required(value, max).value;
    StripResult(value);
    StripResult(r);
    StripIsIdentityIff(r);
    VisibleStartSurvives(r);
  }

  /** n characters c, then a space and two more: one space at the cut when n is one below the limit. */
  function Padded(c: char, n: nat): string {
    seq(n, _ => c) + " xy"
  }

  /** At every limit the constructors use, a field with whitespace at the cut is not stable. */
  lemma CutSpaceIsUnstable(max: nat)
    requires max in {128, 256, 512}
    ensures var value := Padded('a', max - 1);
      Required(value, max) == Ok(seq(max - 1, _ => 'a') + " ")
      && Required(seq(max - 1, _ => 'a') + " ", max) == Ok(seq(max - 1, _ => 'a'))
  {
    var value, kept := Padded('a', max - 1), seq(max - 1, _ => 'a');
    StripIsIdentityIff(value);
    assert value[..max] == kept + " ";
    VisibleStartSurvives(kept + " ");
    assert (kept + " ")[..max-1] == kept;
    StripIsIdentityIff(kept);
  }

  /** The alphabet of a normalised lineage: [a-z0-9:_-]. */
  predicate InAlphabet(c: char) {
    'a' <= c <= 'z' || '0' <= c <= '9' || c == ':' || c == '_' || c == '-'
  }

  predicate IsPlain(s: string) {
    forall k :: 0 <= k < |s| ==> InAlphabet(s[k])
  }

  /** `re.sub` of each run outside the alphabet by one underscore. */
  function Collapse(s: string): (r: string)
    ensures IsPlain(r)
    ensures IsPlain(s) ==> r == s
  {
    if s == [] then []
    else
      var init, c := Collapse(s[..|s|-1]), s[|s|-1];
      if InAlphabet(c) then init + [c]
      else if |s| >= 2 && !InAlphabet(s[|s|-2]) then init
      else init + ['_']
  }

  function TrimUnderscores(s: string): (r: string)
    ensures IsPlain(s) ==> IsPlain(r)
    ensures r != [] ==> r[0] != '_' && r[|r|-1] != '_'
    ensures s == [] || (s[0] != '_' && s[|s|-1] != '_') ==> r == s
    ensures |r| <= |s|
    decreases |s|
  {
    if s == [] then s
    else if s[0] == '_' then TrimUnderscores(s[1..])
    else if s[|s|-1] == '_' then TrimUnderscores(s[..|s|-1])
    else s
  }

  /** `_lineage`; `lower` stands for `str.lower`. */
  function Lineage(lower: string -> string, value: string): Result<string> {
    var text :- Required(value, 128);
    var plain := TrimUnderscores(Collapse(lower(text)));
    if plain == "" then Err(EmptyField) else Ok(plain)
  }

  /** Lower-casing leaves the alphabet alone. */
  ghost predicate LowerIsPlain(lower: string -> string) {
    forall s :: IsPlain(s) ==> lower(s) == s
  }

  lemma PlainIsStripped(s: string)
    requires IsPlain(s)
    ensures Strip(s) == s
  {
    StripIsIdentityIff(s);
  }

  /** A lineage is stable exactly when it fits the limit again; lower-casing may have made it longer. */
  lemma LineageIsStableIff(lower: string -> string, value: string)
    requires LowerIsPlain(lower) && Lineage(lower, value).Ok?
    ensures var r := Lineage(lower, value).value; Lineage(lower, r) == Ok(r) <==> |r| <= 128
  {
    var r := Lineage(lower, value).value;
    PlainIsStripped(r);
    var cut := Truncated(r, 128);
    assert IsPlain(cut);
    assert lower(cut) == cut;
  }

  function DottedIs(n: nat): string {
    seq(n, _ => '\U{0130}')
  }

  function Repeated(pair: string, n: nat): string {
    if n == 0 then "" else Repeated(pair, n - 1) + pair
  }

  lemma {:induction false} CollapseSnoc(s: string, c: char)
    ensures Collapse(s + [c]) ==
      if InAlphabet(c) then Collapse(s) + [c]
      else if s != [] && !InAlphabet(s[|s|-1]) then Collapse(s)
      else Collapse(s) + ['_']
  {
    assert (s + [c])[..|s|] == s;
  }

  lemma {:induction false} DotsCollapse(n: nat)
    ensures Collapse(Repeated("i\U{0307}", n)) == Repeated("i_", n)
  {
    hide Collapse;
    if n == 0 {
      NothingCollapses();
    } else {
      DotsCollapse(n - 1);
      var s := Repeated("i\U{0307}", n - 1);
      assert Repeated("i\U{0307}", n) == s + ['i'] + ['\U{0307}'];
      CollapseSnoc(s, 'i');
      CollapseSnoc(s + ['i'], '\U{0307}');
      assert Repeated("i_", n) == Repeated("i_", n - 1) + ['i'] + ['_'];
    }
  }

  lemma NothingCollapses()
    ensures Collapse("") == ""
  {
  }

  lemma {:induction false} RepeatedFacts(pair: string, n: nat)
    requires |pair| == 2
    ensures |Repeated(pair, n)| == 2 * n && (n > 0 ==> Repeated(pair, n)[0] == pair[0])
  {
    if n > 0 {
      RepeatedFacts(pair, n - 1);
    }
  }

  lemma DashesTrim(n: nat)
    ensures TrimUnderscores(Repeated("i_", n + 1)) == Repeated("i_", n) + "i"
  {
    var s, r := Repeated("i_", n + 1), Repeated("i_", n) + "i";
    RepeatedFacts("i_", n);
    assert s == r + "_" && s[..|s|-1] == r;
    hide Repeated;
    assert r[0] == 'i' && r[|r|-1] == 'i';
  }

  /** Python lower-cases the capital I with a dot to an i and a combining dot; ninety of them outgrow the limit. */
  lemma LoweredLineageIsUnstable(lower: string -> string)
    requires LowerIsPlain(lower) && lower(DottedIs(90)) == Repeated("i\U{0307}", 90)
    ensures var r := Lineage(lower, DottedIs(90)); r.Ok? && |r.value| == 179 && Lineage(lower, r.value) != r
  {
    var value := DottedIs(90);
    StripIsIdentityIff(value);
    DotsCollapse(90);
    DashesTrim(89);
    RepeatedFacts("i_", 89);
    hide Strip, Collapse, TrimUnderscores, Repeated, DottedIs;
    var r := Repeated("i_", 89) + "i";
    assert Lineage(lower, value) == Ok(r);
    LineageIsStableIff(lower, value);
  }

  // ---------------------------------------------------------------- references

  datatype Reference = Reference(id: string, evidenceClass: string, lineage: string, modality: string,
                                 observedAt: int, confidence: real, derived: bool)

  /** The reference constructor; `aware` says that the timestamp carries a zone. */
  function BuildReference(lower: string -> string, r: Reference, aware: bool): Result<Reference> {
    var id :- Required(r.id, 256);
    var evidenceClass := lower(Strip(r.evidenceClass));
    if evidenceClass !in CLASSES then Err(UnknownClass) else
    var modality := lower(Strip(r.modality));
    if modality !in MODALITIES then Err(UnknownModality) else
    var lineage :- Lineage(lower, r.lineage);
    if !(0.0 <= r.confidence <= 1.0) then Err(BadConfidence) else
    if !aware then Err(NaiveTime) else
    Ok(Reference(id, evidenceClass, lineage, modality, r.observedAt, r.confidence, r.derived))
  }

  lemma ShortNamesArePlain(c: string)
    ensures c in {"ais_derived", "dsc_message", "radio_signal", "navtex_message", "audio_artifact"} ==> IsPlain(c)
  {
  }

  lemma LongNamesArePlain(c: string)
    ensures c in {"ais_observation", "audio_transcript", "archive_reference", "operational_claim"} ==> IsPlain(c)
  {
  }

  lemma LongestNamesArePlain(c: string)
    ensures c in {"verification_claim", "satellite_observation"} ==> IsPlain(c)
  {
  }

  lemma ClassesArePlain(c: string)
    requires c in CLASSES
    ensures IsPlain(c)
  {
    hide IsPlain;
    if |c| <= 14 {
      ShortNamesArePlain(c);
    } else if |c| <= 17 {
      LongNamesArePlain(c);
    } else {
      LongestNamesArePlain(c);
    }
  }

  lemma ModalitiesArePlain(m: string)
    ensures m in MODALITIES ==> IsPlain(m)
  {
  }

  /** A reference is rebuilt unchanged exactly when its id was not cut at whitespace and its lineage fits the limit. */
  lemma ReferenceIsStableIff(lower: string -> string, raw: Reference)
    requires LowerIsPlain(lower) && BuildReference(lower, raw, true).Ok?
    ensures var r := BuildReference(lower, raw, true).value;
      BuildReference(lower, r, true) == Ok(r)
      <==> CutClean(raw.id, 256) && |r.lineage| <= 128
  {
    hide Strip, Lineage, Truncated, CutClean;
    var r := BuildReference(lower, raw, true).value;
    RequiredIsStableIff(raw.id, 256);
    LineageIsStableIff(lower, raw.lineage);
    ClassesArePlain(r.evidenceClass);
    ModalitiesArePlain(r.modality);
    PlainIsStripped(r.evidenceClass);
    PlainIsStripped(r.modality);
    assert lower(r.evidenceClass) == r.evidenceClass && lower(r.modality) == r.modality;
  }

  /** `independence_key`. */
  function Key(r: Reference): Option<string> {
    if r.derived then None else if r.modality == "ais" then Some("modality:ais") else Some("source:" + r.lineage)
  }

  // ---------------------------------------------------------------- packets

  datatype Packet = Packet(subject: string, evidence: seq<Reference>, required: seq<string>,
                           contradictions: seq<string>, ceiling: real, groups: seq<string>, missing: seq<string>)

  /** What the packet id is a digest of. */
  datatype Material = Material(subject: string, evidence: seq<Reference>, required: seq<string>,
                               contradictions: seq<string>, ceiling: real)

  function MaterialOf(p: Packet): Material {
    Material(p.subject, p.evidence, p.required, p.contradictions, p.ceiling)
  }

  /** The first reference under each id. */
  function ById(refs: seq<Reference>): map<string, Reference> {
    if refs == [] then map[] else
    var m, last := ById(refs[..|refs|-1]), refs[|refs|-1];
    if last.id in m then m else m[last.id := last]
  }

  lemma {:induction false} ByIdFacts(refs: seq<Reference>)
    ensures forall id :: id in ById(refs) ==> ById(refs)[id] in refs && ById(refs)[id].id == id
    ensures forall r :: r in refs ==> r.id in ById(refs)
  {
    if refs != [] {
      ByIdFacts(refs[..|refs|-1]);
      assert forall r :: r in refs <==> r in refs[..|refs|-1] || r == refs[|refs|-1];
    }
  }

  function Ids(refs: seq<Reference>): seq<string> {
    seq(|refs|, k requires 0 <= k < |refs| => refs[k].id)
  }

  /** `sorted(refs_by_id.values(), key=id)`. */
  function Canonical(refs: seq<Reference>): (es: seq<Reference>)
    ensures Ids(es) == SortedStrings(Ids(refs))
    ensures forall k :: 0 <= k < |es| ==> es[k].id in ById(refs) && es[k] == ById(refs)[es[k].id]
  {
    var m, ids := ById(refs), SortedStrings(Ids(refs));
    ByIdFacts(refs);
    assert forall id :: id in ids ==> id in m by {
      forall id | id in ids ensures id in m {
        var k :| 0 <= k < |refs| && Ids(refs)[k] == id;
        assert refs[k] in refs;
      }
    }
    seq(|ids|, k requires 0 <= k < |ids| => assert ids[k] in ids; m[ids[k]])
  }

  /** Each item normalised, or the first error. */
  function NormalizeAll(items: seq<string>, norm: string -> Result<string>): Result<seq<string>> {
    if items == [] then Ok([]) else
    var done :- NormalizeAll(items[..|items|-1], norm);
    var item :- norm(items[|items|-1]);
    Ok(done + [item])
  }

  function ClassName(lower: string -> string, value: string): Result<string> {
    var item := lower(Strip(value));
    if item in CLASSES then Ok(item) else Err(UnknownClass)
  }

  function ClassNorm(lower: string -> string): string -> Result<string> {
    v => ClassName(lower, v)
  }

  function Note(v: string): Result<string> {
    Required(v, 128)
  }

  function Keys(refs: seq<Reference>): seq<string> {
    if refs == [] then [] else
    Keys(refs[..|refs|-1]) + match Key(refs[|refs|-1]) case Some(k) => [k] case None => []
  }

  function Missing(required: seq<string>, evidence: seq<Reference>): seq<string> {
    if required == [] then [] else
    Missing(required[..|required|-1], evidence)
    + if exists r :: r in evidence && r.evidenceClass == required[|required|-1] then [] else [required[|required|-1]]
  }

  /** The packet constructor. `lower` stands for `str.lower`. */
  function Build(lower: string -> string, subject: string, refs: seq<Reference>, required: seq<string>,
                 contradictions: seq<string>, ceiling: real): Result<Packet> {
    var name :- Required(subject, 256);
    if refs == [] then Err(NoEvidence) else
    if |ById(refs)| > MAX_EVIDENCE then Err(TooMuchEvidence) else
    var classes :- NormalizeAll(required, ClassNorm(lower));
    var items :- NormalizeAll(contradictions, Note);
    if |SortedStrings(items)| > MAX_CONTRADICTIONS then Err(TooManyContradictions) else
    if !(0.0 <= ceiling <= 1.0) then Err(BadCeiling) else
    var evidence := Canonical(refs);
    Ok(Packet(name, evidence, SortedStrings(classes), SortedStrings(items), ceiling, SortedStrings(Keys(evidence)),
              Missing(SortedStrings(classes), evidence)))
  }

  // ---------------------------------------------------------------- identity depends on the set of references

  /** Equal ids mean equal references. */
  ghost predicate Coherent(refs: seq<Reference>) {
    forall a, b :: a in refs && b in refs && a.id == b.id ==> a == b
  }

  ghost predicate SameMembers<T(!new)>(a: seq<T>, b: seq<T>) {
    forall x :: x in a <==> x in b
  }

  lemma IdsFollow(a: seq<Reference>, b: seq<Reference>)
    requires forall r :: r in a ==> r in b
    ensures forall id :: id in Ids(a) ==> id in Ids(b)
  {
    forall id | id in Ids(a) ensures id in Ids(b) {
      var k :| 0 <= k < |a| && Ids(a)[k] == id;
      assert a[k] in b;
      var m :| 0 <= m < |b| && b[m] == a[k];
      assert Ids(b)[m] == id;
    }
  }

  lemma SameById(a: seq<Reference>, b: seq<Reference>)
    requires Coherent(a) && SameMembers(a, b)
    ensures ById(a) == ById(b)
  {
    var m, n := ById(a), ById(b);
    ByIdFacts(a);
    ByIdFacts(b);
    forall id ensures id in m <==> id in n
      ensures id in m ==> m[id] == n[id]
    {
      if id in m {
        assert m[id] in b;
      }
      if id in n {
        assert n[id] in a;
      }
    }
  }

  /** The evidence of a packet is a function of the set of its references. */
  lemma CanonicalEvidence(a: seq<Reference>, b: seq<Reference>)
    requires Coherent(a) && SameMembers(a, b)
    ensures Canonical(a) == Canonical(b)
  {
    SameById(a, b);
    IdsFollow(a, b);
    IdsFollow(b, a);
    SortedStringsAreCanonical(Ids(a), Ids(b));
    var x, y := Canonical(a), Canonical(b);
    assert |x| == |Ids(x)| == |Ids(y)| == |y|;
    forall k | 0 <= k < |x| ensures x[k] == y[k] {
      assert x[k].id == Ids(x)[k] == Ids(y)[k] == y[k].id;
    }
  }

  lemma ByIdSnoc(refs: seq<Reference>, last: Reference)
    ensures ById(refs + [last]) == if last.id in ById(refs) then ById(refs) else ById(refs)[last.id := last]
  {
    assert (refs + [last])[..|refs|] == refs;
  }

  lemma {:induction false} FirstWins(refs: seq<Reference>, r: Reference)
    ensures ById([r] + refs) == ById(refs)[r.id := r]
  {
    if refs == [] {
      assert [r] + refs == [] + [r];
      ByIdSnoc([], r);
    } else {
      hide ById;
      var init, last := refs[..|refs|-1], refs[|refs|-1];
      FirstWins(init, r);
      ByIdSnoc(init, last);
      ByIdSnoc([r] + init, last);
      assert init + [last] == refs;
      assert ([r] + init) + [last] == [r] + refs;
      UpdatesCommute(ById(init), r, last);
    }
  }

  lemma UpdatesCommute(m: map<string, Reference>, r: Reference, last: Reference)
    ensures (if last.id in m[r.id := r] then m[r.id := r] else m[r.id := r][last.id := last])
         == (if last.id in m then m else m[last.id := last])[r.id := r]
  {
  }

  lemma ClashChangesEvidence(refs: seq<Reference>, a: Reference, b: Reference)
    requires a.id == b.id && a != b
    ensures Canonical([a] + refs) != Canonical([b] + refs)
  {
    FirstWins(refs, a);
    FirstWins(refs, b);
    hide ById;
    InCanonical([a] + refs, a.id);
    InCanonical([b] + refs, a.id);
  }

  lemma RepeatKeepsMembers(refs: seq<Reference>, a: Reference)
    ensures a in refs ==> SameMembers(refs, [a] + refs)
  {
  }

  /** Listing order and repetition never matter exactly when equal ids mean equal references. */
  lemma OrderIsIrrelevantIff(refs: seq<Reference>)
    ensures (forall other :: SameMembers(refs, other) ==> Canonical(refs) == Canonical(other)) <==> Coherent(refs)
  {
    hide Canonical;
    if Coherent(refs) {
      forall other | SameMembers(refs, other) ensures Canonical(refs) == Canonical(other) {
        CanonicalEvidence(refs, other);
      }
    } else {
      var a, b :| a in refs && b in refs && a.id == b.id && a != b;
      RepeatKeepsMembers(refs, a);
      RepeatKeepsMembers(refs, b);
      hide SameMembers;
      ClashChangesEvidence(refs, a, b);
    }
  }

  lemma InCanonical(refs: seq<Reference>, id: string)
    requires id in ById(refs)
    ensures exists k ::
      0 <= k < |Canonical(refs)| && Canonical(refs)[k].id == id && Canonical(refs)[k] == ById(refs)[id]
  {
    ByIdFacts(refs);
    var es := Canonical(refs);
    var r := ById(refs)[id];
    var n :| 0 <= n < |refs| && refs[n] == r;
    assert Ids(refs)[n] == id;
    assert id in SortedStrings(Ids(refs));
    var k :| 0 <= k < |Ids(es)| && Ids(es)[k] == id;
    assert es[k].id == id;
  }

  lemma {:induction false} NormalizedMembers(items: seq<string>, norm: string -> Result<string>, e: Error)
    requires forall v :: norm(v).Err? ==> norm(v).error == e
    ensures match NormalizeAll(items, norm)
      case Ok(done) => (forall v :: v in items ==> norm(v).Ok? && norm(v).value in done)
                       && (forall x :: x in done ==> exists v :: v in items && norm(v) == Ok(x))
      case Err(error) => error == e && exists v :: v in items && norm(v).Err?
  {
    if items != [] {
      var init, last := items[..|items|-1], items[|items|-1];
      NormalizedMembers(init, norm, e);
      assert forall v :: v in items <==> v in init || v == last;
      if NormalizeAll(items, norm).Ok? {
        var done := NormalizeAll(init, norm).value;
        assert forall x :: x in done + [norm(last).value] <==> x in done || x == norm(last).value;
      }
    }
  }

  lemma NormalizedSame(a: seq<string>, b: seq<string>, norm: string -> Result<string>, e: Error)
    requires SameMembers(a, b) && forall v :: norm(v).Err? ==> norm(v).error == e
    ensures NormalizeAll(a, norm).Ok? == NormalizeAll(b, norm).Ok?
    ensures NormalizeAll(a, norm).Err? ==> NormalizeAll(a, norm) == NormalizeAll(b, norm)
    ensures NormalizeAll(a, norm).Ok? ==>
      SortedStrings(NormalizeAll(a, norm).value) == SortedStrings(NormalizeAll(b, norm).value)
  {
    NormalizedMembers(a, norm, e);
    NormalizedMembers(b, norm, e);
    if NormalizeAll(a, norm).Ok? && NormalizeAll(b, norm).Ok? {
      SortedStringsAreCanonical(NormalizeAll(a, norm).value, NormalizeAll(b, norm).value);
    }
  }

  /** The same sets of references, required classes and contradictions give the same packet, or the same refusal. */
  lemma PacketIsCanonical(lower: string -> string, subject: string, refs: seq<Reference>, refs': seq<Reference>,
                          required: seq<string>, required': seq<string>, notes: seq<string>, notes': seq<string>,
                          ceiling: real)
    requires Coherent(refs) && SameMembers(refs, refs')
    requires SameMembers(required, required') && SameMembers(notes, notes')
    ensures Build(lower, subject, refs, required, notes, ceiling)
         == Build(lower, subject, refs', required', notes', ceiling)
  {
    hide Required, Note, ClassNorm, Canonical, ById, Missing, Keys;
    SameById(refs, refs');
    CanonicalEvidence(refs, refs');
    ClassErrors(lower);
    FieldErrors();
    NormalizedSame(required, required', ClassNorm(lower), UnknownClass);
    NormalizedSame(notes, notes', Note, EmptyField);
    EmptyTogether(refs, refs');
  }

  lemma ClassErrors(lower: string -> string)
    ensures forall v :: ClassNorm(lower)(v).Err? ==> ClassNorm(lower)(v).error == UnknownClass
  {
    hide CLASSES, Strip;
  }

  lemma FieldErrors()
    ensures forall v :: Note(v).Err? ==> Note(v).error == EmptyField
  {
  }

  lemma EmptyTogether(a: seq<Reference>, b: seq<Reference>)
    requires SameMembers(a, b)
    ensures a == [] <==> b == []
  {
    if a != [] {
      assert a[0] in b;
    }
    if b != [] {
      assert b[0] in a;
    }
  }

  /** What a built packet holds: canonical evidence, and derived fields that follow from the rest. */
  ghost predicate Holds(p: Packet, refs: seq<Reference>) {
    && p.evidence == Canonical(refs)
    && p.groups == SortedStrings(Keys(p.evidence)) && p.missing == Missing(p.required, p.evidence)
  }

  lemma BuiltHolds(lower: string -> string, subject: string, refs: seq<Reference>, required: seq<string>,
                   notes: seq<string>, ceiling: real)
    ensures var p := Build(lower, subject, refs, required, notes, ceiling); p.Ok? ==> Holds(p.value, refs)
  {
    hide Required, Canonical, Note, ClassNorm, Keys, Missing, ById, NormalizeAll, SortedStrings;
  }

  /** Two packets whose material does not collide in the digest have the same id exactly when they are the same. */
  ghost predicate IdsTell(digest: Material -> string, p: Packet, q: Packet) {
    (digest(MaterialOf(p)) == digest(MaterialOf(q)) ==> MaterialOf(p) == MaterialOf(q)) ==>
      (digest(MaterialOf(p)) == digest(MaterialOf(q)) <==> p == q)
  }

  /** So it is for built packets, derived fields included. */
  lemma SameIdSamePacket(digest: Material -> string, lower: string -> string,
                         subject: string, refs: seq<Reference>, required: seq<string>, notes: seq<string>,
                         ceiling: real, subject': string, refs': seq<Reference>, required': seq<string>,
                         notes': seq<string>, ceiling': real)
    ensures var p, q := Build(lower, subject, refs, required, notes, ceiling),
                        Build(lower, subject', refs', required', notes', ceiling');
      p.Ok? && q.Ok? ==> IdsTell(digest, p.value, q.value)
  {
    BuiltHolds(lower, subject, refs, required, notes, ceiling);
    BuiltHolds(lower, subject', refs', required', notes', ceiling');
    hide Build, Keys, Missing, Canonical, SortedStrings;
  }

  // ---------------------------------------------------------------- rebuilding a packet

  lemma SortedAlready(s: seq<string>)
    requires Ascending(s)
    ensures SortedStrings(s) == s
  {
    AscendingIsCanonical(SortedStrings(s), s);
  }

  lemma CanonicalTwice(refs: seq<Reference>)
    ensures Canonical(Canonical(refs)) == Canonical(refs)
    ensures ById(Canonical(refs)).Keys == ById(refs).Keys
  {
    var es := Canonical(refs);
    SortedAlready(Ids(es));
    ByIdFacts(es);
    ByIdFacts(refs);
    var again := Canonical(es);
    assert |again| == |Ids(again)| == |Ids(es)| == |es|;
    forall k | 0 <= k < |es| ensures again[k] == es[k] {
      assert again[k].id == Ids(again)[k] == Ids(es)[k] == es[k].id;
      var m :| 0 <= m < |es| && es[m] == again[k];
      assert es[k] == ById(refs)[es[k].id] && es[m] == ById(refs)[es[m].id];
    }
    forall id ensures id in ById(es) <==> id in ById(refs) {
      if id in ById(refs) {
        InCanonical(refs, id);
      }
    }
  }

  lemma {:induction false} NormalizeFixed(items: seq<string>, norm: string -> Result<string>)
    requires forall v :: v in items ==> norm(v) == Ok(v)
    ensures NormalizeAll(items, norm) == Ok(items)
  {
    if items != [] {
      var init, last := items[..|items|-1], items[|items|-1];
      assert last in items && forall v :: v in init ==> v in items;
      NormalizeFixed(init, norm);
      assert items == init + [last];
    }
  }

  lemma RequiredClasses(lower: string -> string, required: seq<string>)
    requires LowerIsPlain(lower) && NormalizeAll(required, ClassNorm(lower)).Ok?
    ensures var classes := SortedStrings(NormalizeAll(required, ClassNorm(lower)).value);
      NormalizeAll(classes, ClassNorm(lower)) == Ok(classes)
  {
    hide CLASSES, Strip;
    var norm := ClassNorm(lower);
    ClassErrors(lower);
    NormalizedMembers(required, norm, UnknownClass);
    var classes := SortedStrings(NormalizeAll(required, norm).value);
    forall c | c in classes ensures norm(c) == Ok(c) {
      var v :| v in required && norm(v) == Ok(c);
      ClassesArePlain(c);
      PlainIsStripped(c);
    }
    NormalizeFixed(classes, norm);
  }

  /** A normalised contradiction, as the set of them contains it. */
  ghost predicate FromNotes(notes: seq<string>, items: seq<string>) {
    && (forall v :: v in notes ==> Note(v).Ok? && Note(v).value in items)
    && forall x :: x in items ==> exists v :: v in notes && Note(v) == Ok(x)
  }

  lemma CleanNotesStay(notes: seq<string>, items: seq<string>)
    requires FromNotes(notes, items) && Ascending(items) && forall v :: v in notes ==> CutClean(v, 128)
    ensures NormalizeAll(items, Note) == Ok(items) && SortedStrings(items) == items
  {
    hide Note, CutClean;
    forall x | x in items ensures Note(x) == Ok(x) {
      var v :| v in notes && Note(v) == Ok(x);
      NoteStableIff(v, x);
    }
    NormalizeFixed(items, Note);
    SortedAlready(items);
  }

  lemma NoteStableIff(v: string, x: string)
    requires Note(v) == Ok(x)
    ensures Note(x).Ok? && (Note(x) == Ok(x) <==> CutClean(v, 128))
  {
    RequiredIsStableIff(v, 128);
  }

  lemma UncleanNoteIsLost(notes: seq<string>, items: seq<string>, v: string, again: seq<string>)
    requires FromNotes(notes, items) && v in notes && !CutClean(v, 128) && FromNotes(items, again)
    ensures Note(v).value in items && Note(v).value !in again
  {
    hide Note, CutClean;
    var x := Note(v).value;
    NoteStableIff(v, x);
    if x in again {
      var y :| y in items && Note(y) == Ok(x);
      var u :| u in notes && Note(u) == Ok(y);
      RequiredTwice(u, y, x);
    }
  }

  lemma NormalizedNotes(notes: seq<string>)
    requires forall v :: v in notes ==> Note(v).Ok?
    ensures NormalizeAll(notes, Note).Ok?
    ensures FromNotes(notes, SortedStrings(NormalizeAll(notes, Note).value))
    ensures FromNotes(notes, NormalizeAll(notes, Note).value)
  {
    hide Note;
    FieldErrors();
    NormalizedMembers(notes, Note, EmptyField);
  }

  /** The contradictions are rebuilt unchanged exactly when none of them was cut at whitespace. */
  lemma ContradictionsStableIff(notes: seq<string>)
    requires NormalizeAll(notes, Note).Ok?
    ensures var items := SortedStrings(NormalizeAll(notes, Note).value);
      var again := NormalizeAll(items, Note);
      again.Ok? && (SortedStrings(again.value) == items <==> forall v :: v in notes ==> CutClean(v, 128))
  {
    hide Note, CutClean, NormalizeAll, SortedStrings, FromNotes;
    NotesAllOk(notes);
    NormalizedNotes(notes);
    var items := SortedStrings(NormalizeAll(notes, Note).value);
    ItemsAllOk(notes, items);
    NormalizedNotes(items);
    if forall v :: v in notes ==> CutClean(v, 128) {
      CleanNotesStay(notes, items);
    } else {
      var v :| v in notes && !CutClean(v, 128);
      UncleanNoteIsLost(notes, items, v, SortedStrings(NormalizeAll(items, Note).value));
    }
  }

  lemma NotesAllOk(notes: seq<string>)
    requires NormalizeAll(notes, Note).Ok?
    ensures forall v :: v in notes ==> Note(v).Ok?
  {
    FieldErrors();
    hide Note;
    NormalizedMembers(notes, Note, EmptyField);
  }

  lemma ItemsAllOk(notes: seq<string>, items: seq<string>)
    requires FromNotes(notes, items)
    ensures forall x :: x in items ==> Note(x).Ok?
  {
    hide Note, CutClean;
    forall x | x in items ensures Note(x).Ok? {
      var v :| v in notes && Note(v) == Ok(x);
      NoteStableIff(v, x);
    }
  }

  /** A field normalised twice is stable. */
  lemma RequiredTwice(u: string, y: string, x: string)
    requires Note(u) == Ok(y) && Note(y) == Ok(x)
    ensures Note(x) == Ok(x)
  {
    StripResult(y);
    RequiredIsStableIff(y, 128);
  }

  /** Rebuilding a packet from its own fields is the identity exactly when no text field was cut at whitespace. */
  lemma RebuildIsIdentityIff(lower: string -> string, subject: string, refs: seq<Reference>, required: seq<string>,
                             notes: seq<string>, ceiling: real)
    requires LowerIsPlain(lower) && Build(lower, subject, refs, required, notes, ceiling).Ok?
    ensures var p := Build(lower, subject, refs, required, notes, ceiling).value;
      Build(lower, p.subject, p.evidence, p.required, p.contradictions, p.ceiling) == Ok(p)
      <==> CutClean(subject, 256) && forall v :: v in notes ==> CutClean(v, 128)
  {
    hide Required, Note, ClassNorm, Canonical, ById, Missing, Keys, CutClean, NormalizeAll;
    var p := Build(lower, subject, refs, required, notes, ceiling).value;
    SubjectStableIff(subject);
    CanonicalTwice(refs);
    assert |ById(p.evidence)| == |ById(p.evidence).Keys| == |ById(refs).Keys| == |ById(refs)|;
    EvidenceNotEmpty(refs);
    RequiredClasses(lower, required);
    SortedAlready(p.required);
    ContradictionsStableIff(notes);
  }

  /** A subject with a space at the cut: the packet built from it is rebuilt as another packet. */
  lemma CutSubjectIsNotRebuilt(lower: string -> string, r: Reference)
    requires LowerIsPlain(lower)
    ensures var p := Build(lower, Padded('a', 255), [r], [], [], 1.0);
      p.Ok? && Build(lower, p.value.subject, p.value.evidence, p.value.required, p.value.contradictions,
                     p.value.ceiling) != p
  {
    hide Canonical, Missing, Keys, Required, ClassNorm, Note;
    var subject := Padded('a', 255);
    CutSpaceIsUnstable(256);
    OneReference(r);
    AscendingIsCanonical(SortedStrings([]), []);
    StripIsIdentityIff(subject);
    assert !CutClean(subject, 256);
    RebuildIsIdentityIff(lower, subject, [r], [], [], 1.0);
  }

  lemma OneReference(r: Reference)
    ensures ById([r]) == map[r.id := r]
  {
    ByIdSnoc([], r);
    assert [] + [r] == [r];
  }

  lemma SubjectStableIff(subject: string)
    requires Required(subject, 256).Ok?
    ensures var r := Required(subject, 256).value;
      Required(r, 256).Ok? && (Required(r, 256) == Ok(r) <==> CutClean(subject, 256))
  {
    RequiredIsStableIff(subject, 256);
  }

  lemma EvidenceNotEmpty(refs: seq<Reference>)
    ensures refs != [] ==> Canonical(refs) != []
  {
    if refs != [] {
      ByIdFacts(refs);
      assert refs[0] in refs;
      InCanonical(refs, refs[0].id);
    }
  }

  // ---------------------------------------------------------------- independence

  /** The independence groups of a list of references, as a packet of them would have. */
  function Groups(refs: seq<Reference>): seq<string> {
    SortedStrings(Keys(Canonical(refs)))
  }

  lemma {:induction false} KeysMembers(es: seq<Reference>)
    ensures forall k :: k in Keys(es) <==> exists r :: r in es && Key(r) == Some(k)
  {
    if es != [] {
      var init, last := es[..|es|-1], es[|es|-1];
      KeysMembers(init);
      assert forall r :: r in es <==> r in init || r == last;
    }
  }

  /** Some first reference under its id has key k. */
  ghost predicate HasKey(refs: seq<Reference>, k: string) {
    exists id :: id in ById(refs) && Key(ById(refs)[id]) == Some(k)
  }

  lemma GroupMember(refs: seq<Reference>, k: string)
    ensures k in Groups(refs) <==> HasKey(refs, k)
  {
    hide Key;
    var es := Canonical(refs);
    KeysMembers(es);
    if id :| id in ById(refs) && Key(ById(refs)[id]) == Some(k) {
      InCanonical(refs, id);
      var n :| 0 <= n < |es| && es[n].id == id && es[n] == ById(refs)[id];
      assert es[n] in es;
    }
    if r :| r in es && Key(r) == Some(k) {
      var n :| 0 <= n < |es| && es[n] == r;
      assert r.id in ById(refs) && ById(refs)[r.id] == r;
    }
  }

  lemma GroupMembers(refs: seq<Reference>)
    ensures forall k :: k in Groups(refs) <==> HasKey(refs, k)
  {
    forall k ensures k in Groups(refs) <==> HasKey(refs, k) {
      GroupMember(refs, k);
    }
  }

  lemma {:induction false} EarlierWins(refs: seq<Reference>, more: seq<Reference>)
    ensures forall id :: id in ById(refs) ==> id in ById(refs + more) && ById(refs + more)[id] == ById(refs)[id]
    ensures forall id :: id in ById(refs + more) && id !in ById(refs) ==> ById(refs + more)[id] in more
    decreases |more|
  {
    if more == [] {
      assert refs + more == refs;
    } else {
      var init, last := more[..|more|-1], more[|more|-1];
      EarlierWins(refs, init);
      assert refs + more == (refs + init) + [last];
      ByIdSnoc(refs + init, last);
      assert forall r :: r in init ==> r in more;
    }
  }

  /** Adding references never loses a group, and derived references never add one. */
  lemma AddingKeepsGroups(refs: seq<Reference>, more: seq<Reference>)
    ensures forall k :: k in Groups(refs) ==> k in Groups(refs + more)
    ensures (forall r :: r in more ==> r.derived) ==> Groups(refs + more) == Groups(refs)
  {
    EarlierWins(refs, more);
    GroupMembers(refs);
    GroupMembers(refs + more);
    hide ById, Groups;
    forall k | k in Groups(refs) ensures k in Groups(refs + more) {
      var id :| id in ById(refs) && Key(ById(refs)[id]) == Some(k);
      assert id in ById(refs + more) && Key(ById(refs + more)[id]) == Some(k);
    }
    if forall r :: r in more ==> r.derived {
      forall k | k in Groups(refs + more) ensures k in Groups(refs) {
        var id :| id in ById(refs + more) && Key(ById(refs + more)[id]) == Some(k);
        assert id in ById(refs);
      }
      SameGroups(refs, refs + more);
    }
  }

  lemma SameGroups(a: seq<Reference>, b: seq<Reference>)
    requires forall k :: k in Groups(a) <==> k in Groups(b)
    ensures Groups(a) == Groups(b)
  {
    AscendingIsCanonical(Groups(a), Groups(b));
  }

  lemma {:induction false} IncreasingSize(s: seq<string>)
    requires Ascending(s)
    ensures |s| == |set x | x in s|
  {
    if s != [] {
      IncreasingSize(s[1..]);
      TailLosesHead(s, StringOrder());
      assert (set x | x in s) == (set x | x in s[1..]) + {s[0]};
    } else {
      assert (set x | x in s) == {};
    }
  }

  lemma AisKeyOrOld(refs: seq<Reference>, ais: seq<Reference>, k: string)
    requires HasKey(refs + ais, k) && forall r :: r in ais ==> r.modality == "ais"
    ensures HasKey(refs, k) || k == "modality:ais"
  {
    EarlierWins(refs, ais);
    hide ById;
    var id :| id in ById(refs + ais) && Key(ById(refs + ais)[id]) == Some(k);
    if id in ById(refs) {
      assert Key(ById(refs)[id]) == Some(k);
    }
  }

  /** Any number of AIS references adds at most one independence group. */
  lemma AisAddsAtMostOne(refs: seq<Reference>, ais: seq<Reference>)
    requires forall r :: r in ais ==> r.modality == "ais"
    ensures |Groups(refs)| <= |Groups(refs + ais)| <= |Groups(refs)| + 1
  {
    GroupMembers(refs);
    GroupMembers(refs + ais);
    AddingKeepsGroups(refs, ais);
    IncreasingSize(Groups(refs));
    IncreasingSize(Groups(refs + ais));
    hide ById, Groups, HasKey;
    var a, b := set k | k in Groups(refs), set k | k in Groups(refs + ais);
    forall k | k in b ensures k in a + {"modality:ais"} {
      AisKeyOrOld(refs, ais, k);
    }
    SubsetSize(a, b);
    SubsetSize(b, a + {"modality:ais"});
    assert |a + {"modality:ais"}| <= |a| + 1;
  }

  lemma {:induction false} SubsetSize(a: set<string>, b: set<string>)
    requires a <= b
    ensures |a| <= |b|
    decreases |a|
  {
    if x :| x in a {
      SubsetSize(a - {x}, b - {x});
    }
  }

  // ---------------------------------------------------------------- assessment

  datatype Contradiction = Contradiction(topic: string, ids: seq<string>, reason: string)

  datatype Lineages = Contradictory | MultiLineage | SingleLineage

  datatype Assessment = Assessment(state: Lineages, groups: seq<string>, direct: nat, derived: nat,
                                   modalities: seq<string>, contradictions: seq<Contradiction>, ceiling: real)

  /** The order of (topic, evidence_ids, reason). */
  predicate RecordBefore(c: Contradiction, d: Contradiction) {
    || StringOrder()(c.topic, d.topic)
    || (c.topic == d.topic && (
          || Lexicographic(StringOrder())(c.ids, d.ids)
          || (c.ids == d.ids && StringOrder()(c.reason, d.reason))))
  }

  lemma RecordsAreOrdered()
    ensures StrictTotal(RecordBefore)
  {
    var text := StringOrder();
    TuplesAreOrdered(text);
    hide StringOrder, Lexicographic;
  }

  function SortedRecords(records: seq<Contradiction>): (r: seq<Contradiction>)
    ensures Increasing(r, RecordBefore) && forall c :: c in r <==> c in records
  {
    RecordsAreOrdered();
    SortedSet(records, RecordBefore)
  }

  function CountDerived(es: seq<Reference>, derived: bool): nat {
    if es == [] then 0 else CountDerived(es[..|es|-1], derived) + if es[|es|-1].derived == derived then 1 else 0
  }

  function DirectModalities(es: seq<Reference>): seq<string> {
    if es == [] then [] else
    DirectModalities(es[..|es|-1]) + if es[|es|-1].derived then [] else [es[|es|-1].modality]
  }

  /** `evaluate_independence`; None is the error for a contradiction about unknown evidence. */
  function Assess(p: Packet, records: seq<Contradiction>): Option<Assessment> {
    if exists c, id :: c in records && id in c.ids && id !in Ids(p.evidence) then None
    else
      Some(Assessment(
        if records != [] then Contradictory else if |p.groups| >= 2 then MultiLineage else SingleLineage,
        p.groups, CountDerived(p.evidence, false), CountDerived(p.evidence, true),
        SortedStrings(DirectModalities(p.evidence)), SortedRecords(records), p.ceiling))
  }

  lemma SortedRecordsAreCanonical(a: seq<Contradiction>, b: seq<Contradiction>)
    requires SameMembers(a, b)
    ensures SortedRecords(a) == SortedRecords(b)
  {
    RecordsAreOrdered();
    hide RecordBefore;
    SortedSetIsCanonical(a, b, RecordBefore);
  }

  /** The order and repetition of the contradictions never matter. */
  lemma AssessmentIsCanonical(p: Packet, records: seq<Contradiction>, records': seq<Contradiction>)
    requires SameMembers(records, records')
    ensures Assess(p, records) == Assess(p, records')
  {
    hide SortedRecords, CountDerived, DirectModalities;
    SortedRecordsAreCanonical(records, records');
    if records != [] {
      assert records[0] in records';
    } else {
      MemberExists(records');
    }
  }

  lemma {:induction false} CountsSum(es: seq<Reference>)
    ensures CountDerived(es, false) + CountDerived(es, true) == |es|
  {
    if es != [] {
      CountsSum(es[..|es|-1]);
    }
  }

  /** The direct evidence among es. */
  function Direct(es: seq<Reference>): set<Reference> {
    set r | r in es && !r.derived
  }

  lemma DirectSnoc(init: seq<Reference>, last: Reference)
    ensures Direct(init + [last]) == if last.derived then Direct(init) else Direct(init) + {last}
  {
    assert forall r :: r in init + [last] <==> r in init || r == last;
  }

  lemma {:induction false} DirectCount(es: seq<Reference>)
    requires Distinct(es)
    ensures CountDerived(es, false) == |Direct(es)|
  {
    if es != [] {
      var init, last := es[..|es|-1], es[|es|-1];
      DirectCount(init);
      assert es == init + [last];
      DirectSnoc(init, last);
      assert last !in init;
    }
  }

  lemma {:induction false} DirectModality(es: seq<Reference>, m: string)
    ensures m in DirectModalities(es) <==> exists r :: r in Direct(es) && r.modality == m
  {
    if es != [] {
      var init, last := es[..|es|-1], es[|es|-1];
      DirectModality(init, m);
      assert es == init + [last];
      DirectSnoc(init, last);
      hide Direct;
      assert m in DirectModalities(es) <==> m in DirectModalities(init) || (!last.derived && m == last.modality);
    }
  }

  lemma CanonicalDistinct(refs: seq<Reference>)
    ensures Distinct(Canonical(refs))
  {
    var es := Canonical(refs);
    forall i, j | 0 <= i < j < |es| ensures es[i] != es[j] {
      assert StringOrder()(Ids(es)[i], Ids(es)[j]);
    }
  }

  lemma CanonicalMember(refs: seq<Reference>, r: Reference)
    ensures r in Canonical(refs) <==> r.id in ById(refs) && ById(refs)[r.id] == r
  {
    if r.id in ById(refs) && ById(refs)[r.id] == r {
      InCanonical(refs, r.id);
    }
  }

  lemma DerivedAddsNoDirect(refs: seq<Reference>, more: seq<Reference>)
    requires forall r :: r in more ==> r.derived
    ensures Direct(Canonical(refs + more)) == Direct(Canonical(refs))
  {
    EarlierWins(refs, more);
    hide Canonical, ById;
    forall r ensures r in Direct(Canonical(refs + more)) <==> r in Direct(Canonical(refs)) {
      CanonicalMember(refs, r);
      CanonicalMember(refs + more, r);
    }
  }

  /** The assessments agree but for the derived count. */
  predicate Agree(a: Assessment, b: Assessment) {
    a.state == b.state && a.groups == b.groups && a.direct == b.direct && a.modalities == b.modalities
  }

  lemma DirectAlike(refs: seq<Reference>, more: seq<Reference>)
    requires forall r :: r in more ==> r.derived
    ensures CountDerived(Canonical(refs + more), false) == CountDerived(Canonical(refs), false)
    ensures SortedStrings(DirectModalities(Canonical(refs))) == SortedStrings(DirectModalities(Canonical(refs + more)))
  {
    hide Canonical, CountDerived, DirectModalities, Direct, Distinct;
    CanonicalDistinct(refs);
    CanonicalDistinct(refs + more);
    DirectCount(Canonical(refs));
    DirectCount(Canonical(refs + more));
    DerivedAddsNoDirect(refs, more);
    forall m ensures m in DirectModalities(Canonical(refs)) <==> m in DirectModalities(Canonical(refs + more)) {
      DirectModality(Canonical(refs), m);
      DirectModality(Canonical(refs + more), m);
    }
    SortedStringsAreCanonical(DirectModalities(Canonical(refs)), DirectModalities(Canonical(refs + more)));
  }

  lemma AssessedAlike(p: Packet, q: Packet, refs: seq<Reference>, more: seq<Reference>, records: seq<Contradiction>)
    requires forall r :: r in more ==> r.derived
    requires Holds(p, refs) && Holds(q, refs + more) && Assess(p, records).Some?
    ensures var a, b := Assess(p, records), Assess(q, records);
      b.Some? && Agree(a.value, b.value) && b.value.direct + b.value.derived == |q.evidence|
  {
    assert p.groups == Groups(refs) && q.groups == Groups(refs + more);
    hide Canonical, Groups, CountDerived, DirectModalities, Ids, SortedRecords, ById, Keys, Missing, SortedStrings;
    AddingKeepsGroups(refs, more);
    CountsSum(Canonical(refs + more));
    IdsGrow(refs, more);
    DirectAlike(refs, more);
  }

  /**
   * Derived evidence never corroborates: adding any to a packet changes neither the state nor the groups, the direct
   * count or the direct modalities; and each piece of evidence is counted once.
   */
  lemma DerivedNeverCorroborates(lower: string -> string, subject: string, refs: seq<Reference>, more: seq<Reference>,
                                 required: seq<string>, notes: seq<string>, ceiling: real, records: seq<Contradiction>)
    requires forall r :: r in more ==> r.derived
    ensures var p, q := Build(lower, subject, refs, required, notes, ceiling),
                        Build(lower, subject, refs + more, required, notes, ceiling);
      p.Ok? && q.Ok? && Assess(p.value, records).Some? ==>
        && Assess(q.value, records).Some?
        && Agree(Assess(p.value, records).value, Assess(q.value, records).value)
        && Assess(q.value, records).value.direct + Assess(q.value, records).value.derived == |q.value.evidence|
  {
    hide Build, Holds, Assess, Agree;
    BuiltHolds(lower, subject, refs, required, notes, ceiling);
    BuiltHolds(lower, subject, refs + more, required, notes, ceiling);
    var p := Build(lower, subject, refs, required, notes, ceiling);
    var q := Build(lower, subject, refs + more, required, notes, ceiling);
    if p.Ok? && q.Ok? && Assess(p.value, records).Some? {
      AssessedAlike(p.value, q.value, refs, more, records);
    }
  }

  lemma IdsGrow(refs: seq<Reference>, more: seq<Reference>)
    ensures forall id :: id in Ids(Canonical(refs)) ==> id in Ids(Canonical(refs + more))
  {
    IdsFollow(refs, refs + more);
  }

  // ---------------------------------------------------------------- the constructors' loops

  lemma {:induction false} FirstErrorStays(items: seq<string>, norm: string -> Result<string>, n: nat)
    requires n <= |items| && NormalizeAll(items[..n], norm).Err?
    ensures NormalizeAll(items, norm) == NormalizeAll(items[..n], norm)
    decreases |items|
  {
    if n < |items| {
      assert items[..|items|-1][..n] == items[..n];
      FirstErrorStays(items[..|items|-1], norm, n);
    } else {
      assert items[..n] == items;
    }
  }

  /** Normalises items one by one and stops at the first error. */
  method Normalize(items: seq<string>, norm: string -> Result<string>) returns (r: Result<seq<string>>)
    ensures r == NormalizeAll(items, norm)
  {
    var done: seq<string> := [];
    for n := 0 to |items|
      invariant NormalizeAll(items[..n], norm) == Ok(done)
    {
      assert items[..n+1][..n] == items[..n];
      var item := norm(items[n]);
      if item.Err? {
        FirstErrorStays(items, norm, n + 1);
        return Err(item.error);
      }
      done := done + [item.value];
    }
    assert items[..|items|] == items;
    return Ok(done);
  }

  method MakePacket(lower: string -> string, subject: string, refs: seq<Reference>, required: seq<string>,
                    contradictions: seq<string>, ceiling: real) returns (r: Result<Packet>)
    ensures r == Build(lower, subject, refs, required, contradictions, ceiling)
  {
    hide Required, Canonical, Note, ClassNorm;
    var name := Required(subject, 256);
    if name.Err? {
      return Err(name.error);
    }
    var refsById: map<string, Reference> := map[];
    for n := 0 to |refs|
      invariant refsById == ById(refs[..n])
    {
      assert refs[..n+1][..n] == refs[..n];
      if refs[n].id !in refsById {
        refsById := refsById[refs[n].id := refs[n]];
      }
    }
    assert refs[..|refs|] == refs;
    if refs == [] {
      return Err(NoEvidence);
    }
    if |refsById| > MAX_EVIDENCE {
      return Err(TooMuchEvidence);
    }
    var classes := Normalize(required, ClassNorm(lower));
    if classes.Err? {
      return Err(classes.error);
    }
    var items := Normalize(contradictions, Note);
    if items.Err? {
      return Err(items.error);
    }
    if |SortedStrings(items.value)| > MAX_CONTRADICTIONS {
      return Err(TooManyContradictions);
    }
    if !(0.0 <= ceiling <= 1.0) {
      return Err(BadCeiling);
    }
    var evidence := Canonical(refs);
    return Ok(Packet(name.value, evidence, SortedStrings(classes.value), SortedStrings(items.value), ceiling,
                     SortedStrings(Keys(evidence)), Missing(SortedStrings(classes.value), evidence)));
  }

  method EvaluateIndependence(p: Packet, records: seq<Contradiction>) returns (r: Option<Assessment>)
    ensures r == Assess(p, records)
  {
    hide RecordBefore, SortedRecords, DirectModalities, CountDerived;
    var normalized: seq<Contradiction> := [];
    for n := 0 to |records|
      invariant forall c :: c in normalized <==> c in records[..n]
      invariant forall c, id :: c in records[..n] && id in c.ids ==> id in Ids(p.evidence)
    {
      if exists id :: id in records[n].ids && id !in Ids(p.evidence) {
        assert records[n] in records;
        return None;
      }
      assert records[..n+1] == records[..n] + [records[n]];
      if records[n] !in normalized {
        normalized := normalized + [records[n]];
      }
    }
    assert records[..|records|] == records;
    SortedRecordsAreCanonical(normalized, records);
    MemberExists(normalized);
    MemberExists(records);
    return Some(Assessment(
      if normalized != [] then Contradictory else if |p.groups| >= 2 then MultiLineage else SingleLineage,
      p.groups, CountDerived(p.evidence, false), CountDerived(p.evidence, true),
      SortedStrings(DirectModalities(p.evidence)), SortedRecords(normalized), p.ceiling));
  }
}
