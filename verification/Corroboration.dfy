/** What a packet and its assessment say, in terms of the references alone. */
module Corroboration {
  import opened Options
  import opened Sorting
  import opened Sublists
  import opened Text
  import opened Evidence

  // ---------------------------------------------------------------- references

  /** The raw reference has everything a reference needs. */
  ghost predicate Acceptable(lower: string -> string, raw: Reference, aware: bool) {
    && Strip(raw.id) != "" && Strip(raw.lineage) != "" && aware && 0.0 <= raw.confidence <= 1.0
    && lower(Strip(raw.evidenceClass)) in CLASSES && lower(Strip(raw.modality)) in MODALITIES
    && exists c :: c in Collapse(lower(Truncated(Strip(raw.lineage), 128))) && c != '_'
  }

  /** A reference is built exactly from acceptable fields; it keeps what was observed, and its lineage is plain. */
  lemma ReferenceIsBuiltIff(lower: string -> string, raw: Reference, aware: bool)
    ensures var r := BuildReference(lower, raw, aware);
      && (r.Ok? <==> Acceptable(lower, raw, aware))
      && (r.Ok? ==>
            && r.value.evidenceClass == lower(Strip(raw.evidenceClass))
            && r.value.modality == lower(Strip(raw.modality))
            && r.value.observedAt == raw.observedAt && r.value.confidence == raw.confidence
            && r.value.derived == raw.derived && r.value.id != "" && |r.value.id| <= 256 && r.value.id <= Strip(raw.id)
            && IsPlain(r.value.lineage) && r.value.lineage != "")
  {
    hide Strip, Collapse, CLASSES, MODALITIES;
    var text := lower(Truncated(Strip(raw.lineage), 128));
    TrimIsEmptyIff(Collapse(text));
  }

  lemma {:induction false} TrimIsEmptyIff(s: string)
    ensures TrimUnderscores(s) == "" <==> forall c :: c in s ==> c == '_'
    decreases |s|
  {
    if s != [] && s[0] == '_' {
      TrimIsEmptyIff(s[1..]);
      assert forall c :: c in s <==> c == s[0] || c in s[1..];
    } else if s != [] && s[|s|-1] == '_' {
      TrimIsEmptyIff(s[..|s|-1]);
      assert s[0] in s && s[0] in s[..|s|-1];
      assert forall c :: c in s <==> c == s[|s|-1] || c in s[..|s|-1];
    } else if s != [] {
      assert s[0] in s;
    }
  }

  /** Trimming takes underscores off both ends, and nothing else. */
  lemma {:induction false} TrimTakesUnderscores(s: string) returns (lo: nat, hi: nat)
    ensures lo <= hi <= |s| && TrimUnderscores(s) == s[lo..hi]
    ensures forall k :: (0 <= k < lo || hi <= k < |s|) ==> s[k] == '_'
    decreases |s|
  {
    if s == [] {
      lo, hi := 0, 0;
    } else if s[0] == '_' {
      var a, b := TrimTakesUnderscores(s[1..]);
      lo, hi := a + 1, b + 1;
      assert s[1..][a..b] == s[lo..hi];
      assert forall k :: 0 <= k < |s| - 1 ==> s[1..][k] == s[k+1];
      forall k | 0 <= k < lo || hi <= k < |s| ensures s[k] == '_' {
        if k > 0 {
          assert s[1..][k-1] == '_';
        }
      }
    } else if s[|s|-1] == '_' {
      lo, hi := TrimTakesUnderscores(s[..|s|-1]);
      assert s[..|s|-1][lo..hi] == s[lo..hi];
      forall k | 0 <= k < lo || hi <= k < |s| ensures s[k] == '_' {
        if k < |s| - 1 {
          assert s[..|s|-1][k] == '_';
        }
      }
    } else {
      lo, hi := 0, |s|;
      assert s[..] == s;
    }
  }

  /** Lower-case letters, digits and three marks stay in a lineage. */
  lemma LineageKeeps()
    ensures Collapse("abcdefghijklmnopqrstuvwxyz0123456789:_-") == "abcdefghijklmnopqrstuvwxyz0123456789:_-"
  {
    hide Collapse;
    PlainStays("abcdefghijklmnopqrstuvwxyz0123456789:_-");
  }

  lemma PlainStays(s: string)
    ensures IsPlain(s) ==> Collapse(s) == s
  {
  }

  /** Nothing in the run is in the alphabet of lineages. */
  predicate IsJunk(s: string) {
    forall k :: 0 <= k < |s| ==> !InAlphabet(s[k])
  }

  lemma {:induction false} JunkCollapses(a: string, junk: string)
    requires junk != "" && IsJunk(junk) && (a != "" ==> InAlphabet(a[|a|-1]))
    ensures Collapse(a + junk) == Collapse(a) + "_"
  {
    hide Collapse, InAlphabet;
    var init, last := junk[..|junk|-1], junk[|junk|-1];
    assert a + junk == (a + init) + [last];
    CollapseSnoc(a + init, last);
    if init == "" {
      assert a + init == a;
    } else {
      assert (a + init)[|a + init|-1] == init[|init|-1];
      JunkCollapses(a, init);
    }
  }

  lemma {:induction false} CollapseAppend(a: string, b: string)
    requires b != "" ==> InAlphabet(b[0])
    ensures Collapse(a + b) == Collapse(a) + Collapse(b)
  {
    hide Collapse, InAlphabet;
    NothingCollapses();
    if b == "" {
      assert a + b == a;
    } else {
      var init, last := b[..|b|-1], b[|b|-1];
      CollapseAppend(a, init);
      assert a + b == (a + init) + [last] && b == init + [last];
      CollapseSnoc(a + init, last);
      CollapseSnoc(init, last);
      if init != "" {
        assert (a + init)[|a + init|-1] == init[|init|-1];
      }
    }
  }

  /** Each longest run outside the alphabet becomes one underscore; what stands on either side is treated alone. */
  lemma CollapseSplits(a: string, junk: string, b: string)
    requires junk != "" && IsJunk(junk)
    requires (a != "" ==> InAlphabet(a[|a|-1])) && (b != "" ==> InAlphabet(b[0]))
    ensures Collapse(a + junk + b) == Collapse(a) + "_" + Collapse(b)
  {
    hide Collapse, InAlphabet;
    JunkCollapses(a, junk);
    CollapseAppend(a + junk, b);
  }

  // ---------------------------------------------------------------- packets

  /** e is listed, and nothing before it has its id. */
  ghost predicate IsFirst(refs: seq<Reference>, e: Reference) {
    exists k :: 0 <= k < |refs| && refs[k] == e && forall j :: 0 <= j < k ==> refs[j].id != e.id
  }

  lemma IsFirstSnoc(refs: seq<Reference>, last: Reference, e: Reference)
    ensures IsFirst(refs + [last], e)
       <==> IsFirst(refs, e) || (e == last && forall j :: 0 <= j < |refs| ==> refs[j].id != e.id)
  {
    var all := refs + [last];
    assert all[|refs|] == last && forall j :: 0 <= j < |refs| ==> all[j] == refs[j];
  }

  lemma NoIdIff(refs: seq<Reference>, id: string)
    ensures id in ById(refs) <==> exists j :: 0 <= j < |refs| && refs[j].id == id
  {
    ByIdFacts(refs);
    hide ById;
    if j :| 0 <= j < |refs| && refs[j].id == id {
      assert refs[j] in refs;
    }
  }

  lemma {:induction false} ByIdIsFirst(refs: seq<Reference>, e: Reference)
    ensures e.id in ById(refs) && ById(refs)[e.id] == e <==> IsFirst(refs, e)
  {
    if refs != [] {
      var init, last := refs[..|refs|-1], refs[|refs|-1];
      ByIdIsFirst(init, e);
      assert init + [last] == refs;
      hide ById, IsFirst;
      IsFirstSnoc(init, last, e);
      ByIdSnoc(init, last);
      NoIdIff(init, e.id);
    }
  }

  /** What the packet needs is named by a class of the vocabulary. */
  ghost predicate NamesClass(lower: string -> string, v: string, c: string) {
    c == lower(Strip(v)) && c in CLASSES
  }

  /** A note, stripped and cut. */
  ghost predicate NoteText(v: string, x: string) {
    Strip(v) != "" && x == if |Strip(v)| <= 128 then Strip(v) else Strip(v)[..128]
  }

  /** What a packet holds, member by member; its lists are in ascending order. */
  ghost predicate Means(p: Packet, lower: string -> string, subject: string, refs: seq<Reference>,
                        required: seq<string>, notes: seq<string>, ceiling: real) {
    && p.subject != "" && |p.subject| <= 256 && p.subject <= Strip(subject) && p.ceiling == ceiling
    && Ascending(Ids(p.evidence)) && Ascending(p.required) && Ascending(p.contradictions)
    && (forall e :: e in p.evidence <==> IsFirst(refs, e))
    && (forall c :: c in p.required <==> exists v :: v in required && NamesClass(lower, v, c))
    && (forall x :: x in p.contradictions <==> exists v :: v in notes && NoteText(v, x))
  }

  /** The derived fields: what is missing, and which groups there are. */
  ghost predicate Derives(p: Packet) {
    && Ascending(p.missing) && Ascending(p.groups)
    && (forall c :: c in p.missing <==> c in p.required && forall e :: e in p.evidence ==> e.evidenceClass != c)
    && (forall x :: x in p.groups <==> exists e :: e in p.evidence && Supports(e, x))
  }

  /** A direct reference supports the group of its lineage; all AIS evidence supports one group. */
  ghost predicate Supports(e: Reference, x: string) {
    !e.derived && if e.modality == "ais" then x == "modality:ais" else x == "source:" + e.lineage
  }

  lemma KeySupports(e: Reference, x: string)
    ensures Key(e) == Some(x) <==> Supports(e, x)
  {
  }

  lemma {:induction false} MissingMembers(required: seq<string>, evidence: seq<Reference>)
    requires Ascending(required)
    ensures var r := Missing(required, evidence);
      && Ascending(r)
      && forall c :: c in r <==> c in required && forall e :: e in evidence ==> e.evidenceClass != c
  {
    hide StringOrder;
    if required != [] {
      var init, last := required[..|required|-1], required[|required|-1];
      MissingMembers(init, evidence);
      assert forall c :: c in required <==> c in init || c == last;
      var r := Missing(init, evidence);
      forall k | 0 <= k < |r| ensures StringOrder()(r[k], last) {
        assert r[k] in init;
        var n :| 0 <= n < |init| && init[n] == r[k];
        assert required[n] == r[k];
      }
    }
  }

  lemma EvidenceMembers(refs: seq<Reference>)
    ensures forall e :: e in Canonical(refs) <==> IsFirst(refs, e)
  {
    hide Canonical, ById, IsFirst;
    forall e ensures e in Canonical(refs) <==> IsFirst(refs, e) {
      CanonicalMember(refs, e);
      ByIdIsFirst(refs, e);
    }
  }

  lemma DerivedFields(p: Packet, refs: seq<Reference>)
    requires Holds(p, refs) && Ascending(p.required)
    ensures Derives(p)
  {
    hide Canonical, Key, Missing, StringOrder;
    MissingMembers(p.required, p.evidence);
    KeysMembers(p.evidence);
    forall x ensures x in p.groups <==> exists e :: e in p.evidence && Supports(e, x) {
      assert x in p.groups <==> exists e :: e in p.evidence && Key(e) == Some(x);
      forall e ensures Key(e) == Some(x) <==> Supports(e, x) {
        KeySupports(e, x);
      }
    }
  }

  lemma NoteMeans(v: string, x: string)
    ensures Note(v) == Ok(x) <==> NoteText(v, x)
  {
  }

  lemma ClassMeans(lower: string -> string, v: string, c: string)
    ensures ClassNorm(lower)(v) == Ok(c) <==> NamesClass(lower, v, c)
  {
    hide CLASSES, Strip;
  }

  /** A built packet means what it was built from. */
  lemma PacketMeans(lower: string -> string, subject: string, refs: seq<Reference>, required: seq<string>,
                    notes: seq<string>, ceiling: real)
    ensures var p := Build(lower, subject, refs, required, notes, ceiling);
      p.Ok? ==> Means(p.value, lower, subject, refs, required, notes, ceiling) && Derives(p.value)
  {
    hide Note, ClassNorm, Canonical, ById, Missing, Keys, NormalizeAll, IsFirst, NamesClass, NoteText, StringOrder;
    hide Strip, Derives, Holds;
    var p := Build(lower, subject, refs, required, notes, ceiling);
    if p.Ok? {
      BuiltHolds(lower, subject, refs, required, notes, ceiling);
      DerivedFields(p.value, refs);
      EvidenceMembers(refs);
      ClassErrors(lower);
      FieldErrors();
      NormalizedMembers(required, ClassNorm(lower), UnknownClass);
      NormalizedMembers(notes, Note, EmptyField);
      forall v, c ensures ClassNorm(lower)(v) == Ok(c) <==> NamesClass(lower, v, c) {
        ClassMeans(lower, v, c);
      }
      forall v, x ensures Note(v) == Ok(x) <==> NoteText(v, x) {
        NoteMeans(v, x);
      }
    }
  }

  /** No field is empty, no class unknown, the ceiling is a fraction, and there is some evidence but not too much. */
  ghost predicate Fits(lower: string -> string, subject: string, refs: seq<Reference>, required: seq<string>,
                       notes: seq<string>, ceiling: real) {
    && Strip(subject) != "" && refs != [] && |set r | r in refs :: r.id| <= MAX_EVIDENCE
    && (forall v :: v in required ==> lower(Strip(v)) in CLASSES)
    && (forall v :: v in notes ==> Strip(v) != "")
    && |set v | v in notes :: Truncated(Strip(v), 128)| <= MAX_CONTRADICTIONS
    && 0.0 <= ceiling <= 1.0
  }

  lemma IdsCount(refs: seq<Reference>)
    ensures |ById(refs)| == |set r | r in refs :: r.id|
  {
    ByIdFacts(refs);
    hide ById;
    assert ById(refs).Keys == set r | r in refs :: r.id;
  }

  lemma NotesCount(notes: seq<string>, items: seq<string>)
    requires FromNotes(notes, items)
    ensures |SortedStrings(items)| == |set v | v in notes :: Truncated(Strip(v), 128)|
  {
    hide Strip, Truncated;
    IncreasingSize(SortedStrings(items));
    assert (set x | x in SortedStrings(items)) == set v | v in notes :: Truncated(Strip(v), 128);
  }

  lemma PacketIsBuiltIff(lower: string -> string, subject: string, refs: seq<Reference>, required: seq<string>,
                         notes: seq<string>, ceiling: real)
    ensures Build(lower, subject, refs, required, notes, ceiling).Ok?
       <==> Fits(lower, subject, refs, required, notes, ceiling)
  {
    hide Canonical, ById, Missing, Keys, NormalizeAll, StringOrder, Strip, CLASSES, SortedStrings;
    IdsCount(refs);
    ClassErrors(lower);
    FieldErrors();
    NormalizedMembers(required, ClassNorm(lower), UnknownClass);
    NormalizedMembers(notes, Note, EmptyField);
    if NormalizeAll(notes, Note).Ok? {
      NormalizedNotes(notes);
      NotesCount(notes, NormalizeAll(notes, Note).value);
    }
  }

  // ---------------------------------------------------------------- assessments

  /** Two direct references that corroborate each other: not both AIS, and not of one lineage. */
  ghost predicate Independent(a: Reference, b: Reference) {
    && !a.derived && !b.derived
    && ((a.modality == "ais") == (b.modality == "ais") ==> a.modality != "ais" && a.lineage != b.lineage)
  }

  lemma GroupsOfIndependent(a: Reference, b: Reference, x: string, y: string)
    requires Supports(a, x) && Supports(b, y)
    ensures x != y <==> Independent(a, b)
  {
    assert "source:"[0] != "modality:ais"[0];
    if a.modality != "ais" && b.modality != "ais" {
      assert ("source:" + a.lineage)[7..] == a.lineage && ("source:" + b.lineage)[7..] == b.lineage;
    }
  }

  lemma TwoMembersIff(s: seq<string>)
    requires Ascending(s)
    ensures |s| >= 2 <==> exists x, y :: x in s && y in s && x != y
  {
    if |s| >= 2 {
      assert StringOrder()(s[0], s[1]);
      assert s[0] in s && s[1] in s;
    }
  }

  lemma TwoGroupsIff(p: Packet)
    requires Derives(p)
    ensures |p.groups| >= 2 <==> exists a, b :: a in p.evidence && b in p.evidence && Independent(a, b)
  {
    hide StringOrder, Independent, Supports;
    TwoMembersIff(p.groups);
    if |p.groups| >= 2 {
      var x, y :| x in p.groups && y in p.groups && x != y;
      var a :| a in p.evidence && Supports(a, x);
      var b :| b in p.evidence && Supports(b, y);
      GroupsOfIndependent(a, b, x, y);
    }
    if a, b :| a in p.evidence && b in p.evidence && Independent(a, b) {
      DirectSupports(a, b);
      var x :| Supports(a, x);
      var y :| Supports(b, y);
      assert x in p.groups && y in p.groups;
      GroupsOfIndependent(a, b, x, y);
    }
  }

  lemma DirectSupports(a: Reference, b: Reference)
    ensures Independent(a, b) ==> (exists x :: Supports(a, x)) && exists y :: Supports(b, y)
  {
    if Independent(a, b) {
      assert Supports(a, if a.modality == "ais" then "modality:ais" else "source:" + a.lineage);
      assert Supports(b, if b.modality == "ais" then "modality:ais" else "source:" + b.lineage);
    }
  }

  ghost predicate IsKnown(p: Packet, id: string) {
    exists e :: e in p.evidence && e.id == id
  }

  /** What an assessment says about the packet's evidence and the contradiction records. */
  ghost predicate Assesses(a: Assessment, p: Packet, records: seq<Contradiction>) {
    && (a.state == Contradictory <==> records != [])
    && (a.state == MultiLineage <==>
          records == [] && exists x, y :: x in p.evidence && y in p.evidence && Independent(x, y))
    && a.direct == |set e | e in p.evidence && !e.derived| && a.derived == |set e | e in p.evidence && e.derived|
    && (forall m :: m in a.modalities <==> exists e :: e in p.evidence && !e.derived && e.modality == m)
    && (forall c :: c in a.contradictions <==> c in records)
    && Ascending(a.modalities) && Increasing(a.contradictions, RecordBefore)
    && a.groups == p.groups && a.ceiling == p.ceiling
  }

  /** A built packet is assessed iff the records speak of its evidence only, and the assessment means what it says. */
  lemma AssessmentMeans(lower: string -> string, subject: string, refs: seq<Reference>, required: seq<string>,
                        notes: seq<string>, ceiling: real, records: seq<Contradiction>)
    ensures var p := Build(lower, subject, refs, required, notes, ceiling);
      p.Ok? ==>
        var a := Assess(p.value, records);
        && (a.Some? <==> forall c, id :: c in records && id in c.ids ==> IsKnown(p.value, id))
        && (a.Some? ==> Assesses(a.value, p.value, records))
  {
    hide Build, Means, Derives, Holds;
    var p := Build(lower, subject, refs, required, notes, ceiling);
    if p.Ok? {
      BuiltHolds(lower, subject, refs, required, notes, ceiling);
      PacketMeans(lower, subject, refs, required, notes, ceiling);
      AssessmentOf(p.value, refs, records);
    }
  }

  lemma KnownIff(p: Packet, id: string)
    ensures id in Ids(p.evidence) <==> IsKnown(p, id)
  {
    if id in Ids(p.evidence) {
      var k :| 0 <= k < |p.evidence| && Ids(p.evidence)[k] == id;
      assert p.evidence[k] in p.evidence;
    }
    if e :| e in p.evidence && e.id == id {
      var k :| 0 <= k < |p.evidence| && p.evidence[k] == e;
      assert Ids(p.evidence)[k] == id;
    }
  }

  lemma CountsAre(refs: seq<Reference>)
    ensures var es := Canonical(refs);
      && CountDerived(es, false) == |set e | e in es && !e.derived|
      && CountDerived(es, true) == |set e | e in es && e.derived|
  {
    var es := Canonical(refs);
    CanonicalDistinct(refs);
    hide Canonical;
    DirectCount(es);
    DerivedCount(es);
    assert Direct(es) == set e | e in es && !e.derived;
  }

  lemma ModalitiesAre(es: seq<Reference>)
    ensures forall m :: m in DirectModalities(es) <==> exists e :: e in es && !e.derived && e.modality == m
  {
    hide DirectModalities;
    forall m ensures m in DirectModalities(es) <==> exists e :: e in es && !e.derived && e.modality == m {
      DirectModality(es, m);
    }
  }

  lemma AssessedIff(p: Packet, records: seq<Contradiction>)
    ensures Assess(p, records).Some? <==> forall c, id :: c in records && id in c.ids ==> IsKnown(p, id)
  {
    hide IsKnown, Ids, CountDerived, DirectModalities, SortedRecords;
    forall id ensures id in Ids(p.evidence) <==> IsKnown(p, id) {
      KnownIff(p, id);
    }
  }

  lemma StateMeans(p: Packet, records: seq<Contradiction>)
    requires Derives(p) && Assess(p, records).Some?
    ensures var state := Assess(p, records).value.state;
      && (state == Contradictory <==> records != [])
      && (state == MultiLineage <==>
            records == [] && exists x, y :: x in p.evidence && y in p.evidence && Independent(x, y))
  {
    TwoGroupsIff(p);
    hide Derives, Independent, Ids, CountDerived, DirectModalities, SortedRecords, SortedStrings;
  }

  lemma FieldsMean(p: Packet, refs: seq<Reference>, records: seq<Contradiction>)
    requires p.evidence == Canonical(refs) && Assess(p, records).Some?
    ensures var a := Assess(p, records).value;
      && a.direct == |set e | e in p.evidence && !e.derived| && a.derived == |set e | e in p.evidence && e.derived|
      && (forall m :: m in a.modalities <==> exists e :: e in p.evidence && !e.derived && e.modality == m)
      && (forall c :: c in a.contradictions <==> c in records)
      && Ascending(a.modalities) && Increasing(a.contradictions, RecordBefore)
      && a.groups == p.groups && a.ceiling == p.ceiling
  {
    CountsAre(refs);
    ModalitiesAre(p.evidence);
    hide Canonical, RecordBefore, StringOrder, CountDerived, DirectModalities, Ids, Ascending, Increasing;
  }

  lemma AssessmentOf(p: Packet, refs: seq<Reference>, records: seq<Contradiction>)
    requires Holds(p, refs) && Derives(p)
    ensures var a := Assess(p, records);
      && (a.Some? <==> forall c, id :: c in records && id in c.ids ==> IsKnown(p, id))
      && (a.Some? ==> Assesses(a.value, p, records))
  {
    AssessedIff(p, records);
    hide IsKnown, Assess, Derives, Canonical, Keys, Missing, Independent, RecordBefore, Ascending, Increasing;
    if Assess(p, records).Some? {
      StateMeans(p, records);
      FieldsMean(p, refs, records);
    }
  }

  lemma {:induction false} DerivedCount(es: seq<Reference>)
    requires Distinct(es)
    ensures CountDerived(es, true) == |set e | e in es && e.derived|
  {
    if es == [] {
      assert (set e | e in es && e.derived) == {};
    } else {
      var init, last := es[..|es|-1], es[|es|-1];
      DerivedCount(init);
      assert last !in init;
      assert (set e | e in es && e.derived)
          == (set e | e in init && e.derived) + if last.derived then {last} else {};
    }
  }

  /** Contradictions are listed by topic, then by the ids they are about, then by reason. */
  lemma RecordsAreListed(records: seq<Contradiction>, i: nat, j: nat)
    requires i < j < |SortedRecords(records)|
    ensures var c, d := SortedRecords(records)[i], SortedRecords(records)[j];
      && !StringOrder()(d.topic, c.topic)
      && (c.topic == d.topic ==> !Lexicographic(StringOrder())(d.ids, c.ids))
      && (c.topic == d.topic && c.ids == d.ids ==> StringOrder()(c.reason, d.reason))
  {
    var less := StringOrder();
    TuplesAreOrdered(less);
    assert RecordBefore(SortedRecords(records)[i], SortedRecords(records)[j]);
    hide StringOrder, Lexicographic;
  }
}
