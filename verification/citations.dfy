/** Issued source ids and the exact quotations that ranges of them resolve to. */
module Citations {
  import opened Text
  import opened Wrappers
  import opened Chunks

  datatype Field = Education | Experience | Skills | Availability | Description

  datatype Scope = ProfileScope | JobScope

  datatype Profile = Profile(education: Option<string>, experience: Option<string>, skills: seq<string>, availability: Option<string>)

  datatype Job = Job(id: string, description: string)

  datatype Payload = Payload(profile: Profile, jobs: seq<Job>)

  datatype EvidenceError = InvalidEvidence

  const REDACTED := "[redacted]"
  const QUOTE_LIMIT := 4000

  /** One saved text a citation may point into. */
  datatype Entry = Entry(scope: Scope, owner: string, field: Field, index: nat, text: string)

  /** A source id is a hash of exactly these values (and of the payload, constant throughout);
      the hash is taken to be injective, so the id is modelled as what it binds. */
  datatype SourceId = SourceId(scope: Scope, owner: string, field: Field, entry: nat, start: nat, end: nat)

  datatype SourceSpan = SourceSpan(id: SourceId, ordinal: nat, text: string)

  datatype Range = Range(first: SourceId, last: SourceId)

  // ----- what is issued

  /** The values of a profile field as a list. */
  function Originals(profile: Profile, field: Field): seq<string> {
    match field
    case Education => if profile.education.Some? then [profile.education.value] else []
    case Experience => if profile.experience.Some? then [profile.experience.value] else []
    case Skills => profile.skills
    case Availability => if profile.availability.Some? then [profile.availability.value] else []
    case Description => []
  }

  ghost predicate IsEntry(payload: Payload, e: Entry) {
    match e.scope
    case ProfileScope =>
      e.owner == "profile" && e.index < |Originals(payload.profile, e.field)| && e.text == Originals(payload.profile, e.field)[e.index]
    case JobScope =>
      e.index == 0 && e.field == Description && Job(e.owner, e.text) in payload.jobs
  }

  predicate DistinctJobs(jobs: seq<Job>) {
    forall i, j :: 0 <= i < j < |jobs| ==> jobs[i].id != jobs[j].id
  }

  function SpansOf(e: Entry): seq<Span> {
    if e.scope == ProfileScope && e.field == Education then LineSpans(e.text, 0) else SegmentSpans(e.text, 0)
  }

  lemma SpansInOrder(e: Entry)
    ensures InOrder(SpansOf(e), |e.text|)
  {
    if e.scope == ProfileScope && e.field == Education {
      LinesOrdered(e.text, 0);
    } else {
      SegmentsChunked(e.text, 0);
      var s := SpansOf(e);
      forall i | 0 <= i < |s|
        ensures s[i].lo < s[i].hi <= |e.text|
      {
        assert GoodSpan(e.text, 0, s[i], SEGMENT_LIMIT);
      }
    }
  }

  function IdOf(e: Entry, s: Span): SourceId {
    SourceId(e.scope, e.owner, e.field, e.index, s.lo, s.hi)
  }

  /** A segment is issued, unless it is a redacted piece of the profile. */
  predicate Issues(e: Entry, s: Span) {
    s.lo <= s.hi <= |e.text| && !(e.scope == ProfileScope && In(REDACTED, e.text[s.lo..s.hi]))
  }

  function SpanFor(e: Entry, s: Span, ordinal: nat): SourceSpan {
    SourceSpan(IdOf(e, s), ordinal, e.text)
  }

  ghost predicate IssuedFrom(e: Entry, spans: seq<Span>, span: SourceSpan) {
    span.ordinal < |spans| && Issues(e, spans[span.ordinal]) && span == SpanFor(e, spans[span.ordinal], span.ordinal)
  }

  ghost predicate IssuedBy(e: Entry, span: SourceSpan) {
    IssuedFrom(e, SpansOf(e), span)
  }

  ghost predicate Issued(payload: Payload, span: SourceSpan) {
    exists e :: IsEntry(payload, e) && IssuedBy(e, span)
  }

  /** The catalog holds exactly the issued spans, each under its own id. */
  ghost predicate IsCatalog(payload: Payload, catalog: map<SourceId, SourceSpan>) {
    && (forall id :: id in catalog ==> catalog[id].id == id && Issued(payload, catalog[id]))
    && (forall span :: Issued(payload, span) ==> span.id in catalog && catalog[span.id] == span)
  }

  // ----- building the catalog

  function FieldEntries(profile: Profile, field: Field): (r: seq<Entry>)
    ensures |r| == |Originals(profile, field)|
    ensures forall i :: 0 <= i < |r| ==> r[i] == Entry(ProfileScope, "profile", field, i, Originals(profile, field)[i])
  {
    var texts := Originals(profile, field);
    seq(|texts|, i requires 0 <= i < |texts| => Entry(ProfileScope, "profile", field, i, texts[i]))
  }

  function JobEntries(jobs: seq<Job>): (r: seq<Entry>)
    ensures |r| == |jobs| && forall i :: 0 <= i < |r| ==> r[i] == Entry(JobScope, jobs[i].id, Description, 0, jobs[i].description)
  {
    seq(|jobs|, i requires 0 <= i < |jobs| => Entry(JobScope, jobs[i].id, Description, 0, jobs[i].description))
  }

  /** The texts in the order the source walks them. */
  function Entries(payload: Payload): seq<Entry> {
    FieldEntries(payload.profile, Education) + FieldEntries(payload.profile, Experience)
    + FieldEntries(payload.profile, Skills) + FieldEntries(payload.profile, Availability) + JobEntries(payload.jobs)
  }

  lemma EntriesAreEntries(payload: Payload, e: Entry)
    ensures e in Entries(payload) <==> IsEntry(payload, e)
  {
    if IsEntry(payload, e) {
      if e.scope == ProfileScope {
        assert FieldEntries(payload.profile, e.field)[e.index] == e;
        assert e in FieldEntries(payload.profile, e.field);
      } else {
        var i :| 0 <= i < |payload.jobs| && payload.jobs[i] == Job(e.owner, e.text);
        assert JobEntries(payload.jobs)[i] == e;
        assert e in JobEntries(payload.jobs);
      }
    }
  }

  /** No two entries of a payload with distinct job ids bind ids the same way. */
  lemma EntryOfId(payload: Payload, e: Entry, f: Entry)
    requires DistinctJobs(payload.jobs) && IsEntry(payload, e) && IsEntry(payload, f)
    requires e.scope == f.scope && e.owner == f.owner && e.field == f.field && e.index == f.index
    ensures e == f
  {
  }

  /** The catalog after the first `n` segments of `e` were offered to it. */
  function Added(catalog: map<SourceId, SourceSpan>, e: Entry, spans: seq<Span>, n: nat): map<SourceId, SourceSpan>
    requires n <= |spans|
  {
    if n == 0 then catalog
    else
      var before := Added(catalog, e, spans, n - 1);
      if Issues(e, spans[n - 1]) then before[IdOf(e, spans[n - 1]) := SpanFor(e, spans[n - 1], n - 1)] else before
  }

  /** One of the first `n` segments was issued under `id`. */
  ghost predicate OffersId(e: Entry, spans: seq<Span>, n: nat, id: SourceId)
    requires n <= |spans|
  {
    exists i :: 0 <= i < n && Issues(e, spans[i]) && IdOf(e, spans[i]) == id
  }

  lemma {:induction false} AddedLookup(catalog: map<SourceId, SourceSpan>, e: Entry, spans: seq<Span>, n: nat, id: SourceId)
    requires n <= |spans|
    ensures var after := Added(catalog, e, spans, n);
      if OffersId(e, spans, n, id) then id in after && after[id].id == id && IssuedFrom(e, spans, after[id])
      else (id in after <==> id in catalog) && (id in catalog ==> after[id] == catalog[id])
  {
    if n > 0 {
      AddedLookup(catalog, e, spans, n - 1, id);
      assert OffersId(e, spans, n, id) <==>
        OffersId(e, spans, n - 1, id) || (Issues(e, spans[n - 1]) && IdOf(e, spans[n - 1]) == id);
    }
  }

  ghost predicate InOrder(spans: seq<Span>, length: nat) {
    && (forall i :: 0 <= i < |spans| ==> spans[i].lo < spans[i].hi <= length)
    && Ordered(spans)
  }

  /** Offsets decide the segment, so an issued id names one span of its entry. */
  lemma SameIdSameSpan(e: Entry, spans: seq<Span>, a: SourceSpan, b: SourceSpan)
    requires InOrder(spans, |e.text|)
    requires IssuedFrom(e, spans, a) && IssuedFrom(e, spans, b) && a.id == b.id
    ensures a == b
  {
  }

  function CatalogFrom(entries: seq<Entry>): map<SourceId, SourceSpan> {
    if entries == [] then map[]
    else
      var last := entries[|entries| - 1];
      Added(CatalogFrom(entries[..|entries| - 1]), last, SpansOf(last), |SpansOf(last)|)
  }

  lemma {:induction false} CatalogFromIssued(entries: seq<Entry>, id: SourceId)
    ensures var c := CatalogFrom(entries);
      id in c ==> c[id].id == id && exists e :: e in entries && IssuedBy(e, c[id])
  {
    if entries != [] {
      var last := entries[|entries| - 1];
      CatalogFromIssued(entries[..|entries| - 1], id);
      AddedLookup(CatalogFrom(entries[..|entries| - 1]), last, SpansOf(last), |SpansOf(last)|, id);
      assert last in entries;
    }
  }

  /** The last entry adds its own issued ids and loses none. */
  lemma CatalogFromLast(entries: seq<Entry>, id: SourceId)
    requires entries != []
    ensures id in CatalogFrom(entries[..|entries| - 1]) ==> id in CatalogFrom(entries)
    ensures OffersId(entries[|entries| - 1], SpansOf(entries[|entries| - 1]), |SpansOf(entries[|entries| - 1])|, id) ==> id in CatalogFrom(entries)
  {
    var last, before := entries[|entries| - 1], CatalogFrom(entries[..|entries| - 1]);
    assert CatalogFrom(entries) == Added(before, last, SpansOf(last), |SpansOf(last)|);
    AddedLookup(before, last, SpansOf(last), |SpansOf(last)|, id);
    hide CatalogFrom, Added, SpansOf, OffersId;
  }

  lemma {:induction false} CatalogFromComplete(entries: seq<Entry>, e: Entry, span: SourceSpan)
    requires e in entries && IssuedBy(e, span)
    ensures span.id in CatalogFrom(entries)
  {
    hide CatalogFrom, SpansOf, OffersId, IssuedBy;
    CatalogFromLast(entries, span.id);
    if e == entries[|entries| - 1] {
      IssuedIsOffered(e, span);
    } else {
      CatalogFromComplete(entries[..|entries| - 1], e, span);
    }
  }

  lemma IssuedIsOffered(e: Entry, span: SourceSpan)
    requires IssuedBy(e, span)
    ensures OffersId(e, SpansOf(e), |SpansOf(e)|, span.id)
  {
    hide SpansOf;
  }

  function CatalogOf(payload: Payload): map<SourceId, SourceSpan> {
    CatalogFrom(Entries(payload))
  }

  /** What `source_catalog` returns holds every issued span under its own id and nothing else. */
  lemma CatalogOfIsCatalog(payload: Payload)
    requires DistinctJobs(payload.jobs)
    ensures IsCatalog(payload, CatalogOf(payload))
  {
    var catalog := CatalogOf(payload);
    forall id | id in catalog
      ensures catalog[id].id == id && Issued(payload, catalog[id])
    {
      CatalogFromIssued(Entries(payload), id);
      var e :| e in Entries(payload) && IssuedBy(e, catalog[id]);
      EntriesAreEntries(payload, e);
    }
    forall span | Issued(payload, span)
      ensures span.id in catalog && catalog[span.id] == span
    {
      var e :| IsEntry(payload, e) && IssuedBy(e, span);
      EntriesAreEntries(payload, e);
      CatalogFromComplete(Entries(payload), e, span);
      CatalogFromIssued(Entries(payload), span.id);
      var f :| f in Entries(payload) && IssuedBy(f, catalog[span.id]);
      EntriesAreEntries(payload, f);
      EntryOfId(payload, e, f);
      SpansInOrder(e);
      SameIdSameSpan(e, SpansOf(e), span, catalog[span.id]);
    }
  }

  /** `source_catalog`, with the dictionary it fills. */
  method SourceCatalog(payload: Payload) returns (catalog: map<SourceId, SourceSpan>)
    ensures catalog == CatalogOf(payload)
  {
    var entries := Entries(payload);
    hide CatalogFrom, Added, SpansOf, Entries;
    catalog := map[];
    CatalogFromNothing();
    assert entries[..0] == [];
    var n := 0;
    while n < |entries|
      invariant 0 <= n <= |entries| && catalog == CatalogFrom(entries[..n])
    {
      CatalogFromStep(entries, n);
      catalog := AddEntry(catalog, entries[n]);
      n := n + 1;
    }
    assert entries[..n] == entries;
  }

  lemma CatalogFromNothing()
    ensures CatalogFrom([]) == map[]
  {
  }

  lemma CatalogFromStep(entries: seq<Entry>, n: nat)
    requires n < |entries|
    ensures var spans := SpansOf(entries[n]);
      CatalogFrom(entries[..n + 1]) == Added(CatalogFrom(entries[..n]), entries[n], spans, |spans|)
  {
    hide Added, SpansOf;
    assert entries[..n + 1][..n] == entries[..n];
  }

  /** The nested `add`: one entry's segments, without redacted profile pieces. */
  method AddEntry(catalog0: map<SourceId, SourceSpan>, e: Entry) returns (catalog: map<SourceId, SourceSpan>)
    ensures catalog == Added(catalog0, e, SpansOf(e), |SpansOf(e)|)
  {
    SpansInOrder(e);
    catalog := AddSpans(catalog0, e, SpansOf(e));
  }

  method AddSpans(catalog0: map<SourceId, SourceSpan>, e: Entry, spans: seq<Span>) returns (catalog: map<SourceId, SourceSpan>)
    requires InOrder(spans, |e.text|)
    ensures catalog == Added(catalog0, e, spans, |spans|)
  {
    catalog := catalog0;
    var ordinal := 0;
    while ordinal < |spans|
      invariant 0 <= ordinal <= |spans| && catalog == Added(catalog0, e, spans, ordinal)
    {
      var s := spans[ordinal];
      if !(e.scope == ProfileScope && In(REDACTED, e.text[s.lo..s.hi])) {
        var id := IdOf(e, s);
        catalog := catalog[id := SourceSpan(id, ordinal, e.text)];
      }
      ordinal := ordinal + 1;
    }
  }

  // ----- `_resolve`

  /** The per-span checks of `_resolve`. */
  predicate Misplaced(span: SourceSpan, first: SourceSpan, scope: Scope, owner: string, field: Option<Field>) {
    || span.id.scope != scope || span.id.owner != owner || Some(span.id.field) != field
    || span.id.entry != first.id.entry || span.text != first.text
    || !(span.id.start < span.id.end <= |span.text|)
  }

  function Resolve(range: Option<Range>, catalog: map<SourceId, SourceSpan>, scope: Scope, owner: string, field: Option<Field>)
    : Result<Option<string>, EvidenceError>
  {
    if range.None? then Ok(None)
    else if range.value.first !in catalog || range.value.last !in catalog then Err(InvalidEvidence)
    else
      var first, last := catalog[range.value.first], catalog[range.value.last];
      if || Misplaced(first, first, scope, owner, field) || Misplaced(last, first, scope, owner, field)
         || first.ordinal > last.ordinal || first.id.start > last.id.start || first.id.end > last.id.end
      then Err(InvalidEvidence)
      else
        var quote := first.text[first.id.start..last.id.end];
        if |quote| > QUOTE_LIMIT || In(REDACTED, quote) then Err(InvalidEvidence) else Ok(Some(quote))
  }

  /** `_profile_quote`. */
  function ProfileQuote(field: Option<Field>, range: Option<Range>, catalog: map<SourceId, SourceSpan>)
    : Result<Option<string>, EvidenceError>
  {
    if field.None? != range.None? then Err(InvalidEvidence)
    else Resolve(range, catalog, ProfileScope, "profile", field)
  }

  /** An exact quotation: a contiguous slice of one saved text, bounded and unredacted. */
  ghost predicate ExactQuote(payload: Payload, scope: Scope, owner: string, field: Field, quote: string) {
    exists e, lo: nat, hi: nat :: QuotedFrom(payload, e, lo, hi, scope, owner, field, quote)
  }

  ghost predicate QuotedFrom(payload: Payload, e: Entry, lo: nat, hi: nat, scope: Scope, owner: string, field: Field, quote: string) {
    && IsEntry(payload, e) && e.scope == scope && e.owner == owner && e.field == field
    && lo < hi <= |e.text| && quote == e.text[lo..hi]
    && |quote| <= QUOTE_LIMIT && !In(REDACTED, quote)
  }

  /** A range resolves to an exact slice of one entry of the source it was asked for, running
      from the start of one issued segment to the end of an issued segment at or after it. */
  lemma ResolveExact(payload: Payload, catalog: map<SourceId, SourceSpan>, range: Range, scope: Scope, owner: string, field: Option<Field>)
    requires IsCatalog(payload, catalog)
    requires Resolve(Some(range), catalog, scope, owner, field).Ok?
    ensures var r := Resolve(Some(range), catalog, scope, owner, field).value;
      && r.Some? && field.Some?
      && exists e :: QuotedFrom(payload, e, range.first.start, range.last.end, scope, owner, field.value, r.value)
  {
    var first := catalog[range.first];
    var e :| IsEntry(payload, e) && IssuedBy(e, first);
    assert QuotedFrom(payload, e, range.first.start, range.last.end, scope, owner, field.value, e.text[range.first.start..range.last.end]);
  }

  /** What decides whether a range of two issued spans of one entry resolves. */
  predicate GoodRange(range: Range, text: string, scope: Scope, owner: string, field: Field) {
    && range.first.scope == range.last.scope == scope && range.first.owner == range.last.owner == owner
    && range.first.field == range.last.field == field && range.first.entry == range.last.entry
    && range.first.start <= range.last.start
    && (range.first.start <= range.last.end <= |text| ==>
          range.last.end - range.first.start <= QUOTE_LIMIT && !In(REDACTED, text[range.first.start..range.last.end]))
  }

  /** Exactly when a range resolves: both ids issued, for the same entry of the right source,
      in order, bounded, and clear of redaction. The ordinal, end, text and bounds comparisons
      of the source never decide anything for issued ids. */
  lemma ResolveIff(payload: Payload, catalog: map<SourceId, SourceSpan>, range: Range, scope: Scope, owner: string, field: Field)
    requires DistinctJobs(payload.jobs) && IsCatalog(payload, catalog)
    ensures Resolve(Some(range), catalog, scope, owner, Some(field)).Ok? <==>
      range.first in catalog && range.last in catalog && GoodRange(range, catalog[range.first].text, scope, owner, field)
  {
    if range.first in catalog && range.last in catalog {
      var first, last := catalog[range.first], catalog[range.last];
      IssuedIsBound(payload, catalog, range.first);
      IssuedIsBound(payload, catalog, range.last);
      if SamePlace(first, last) {
        hide IsCatalog;
        var e, spans := IssuedPair(payload, first, last);
        OrdinalsFollowOffsets(e, spans, first, last);
      }
      hide IsCatalog, Issued;
      PairResolvesIff(catalog, range, scope, owner, field);
    }
  }

  lemma IssuedIsBound(payload: Payload, catalog: map<SourceId, SourceSpan>, id: SourceId)
    requires IsCatalog(payload, catalog) && id in catalog
    ensures catalog[id].id == id && Issued(payload, catalog[id]) && id.start < id.end <= |catalog[id].text|
  {
    var e :| IsEntry(payload, e) && IssuedBy(e, catalog[id]);
    SpansInOrder(e);
    hide SpansOf;
  }

  lemma PairResolvesIff(catalog: map<SourceId, SourceSpan>, range: Range, scope: Scope, owner: string, field: Field)
    requires range.first in catalog && range.last in catalog
    requires var first, last := catalog[range.first], catalog[range.last];
      && first.id == range.first && last.id == range.last
      && range.first.start < range.first.end <= |first.text| && range.last.start < range.last.end <= |last.text|
      && (SamePlace(first, last) ==> first.text == last.text)
      && (SamePlace(first, last) ==> (range.first.start <= range.last.start <==> first.ordinal <= last.ordinal))
      && (SamePlace(first, last) ==> (range.first.start <= range.last.start <==> range.first.end <= range.last.end))
    ensures Resolve(Some(range), catalog, scope, owner, Some(field)).Ok? <==>
      GoodRange(range, catalog[range.first].text, scope, owner, field)
  {
    hide In;
  }

  predicate SamePlace(a: SourceSpan, b: SourceSpan) {
    a.id.scope == b.id.scope && a.id.owner == b.id.owner && a.id.field == b.id.field && a.id.entry == b.id.entry
  }

  /** Two issued spans bound to the same place are segments of one entry. */
  lemma IssuedPair(payload: Payload, a: SourceSpan, b: SourceSpan) returns (e: Entry, spans: seq<Span>)
    requires DistinctJobs(payload.jobs) && Issued(payload, a) && Issued(payload, b) && SamePlace(a, b)
    ensures IsEntry(payload, e) && spans == SpansOf(e)
    ensures InOrder(spans, |e.text|) && IssuedFrom(e, spans, a) && IssuedFrom(e, spans, b)
  {
    e :| IsEntry(payload, e) && IssuedBy(e, a);
    var f :| IsEntry(payload, f) && IssuedBy(f, b);
    EntryOfId(payload, e, f);
    spans := SpansOf(e);
    SpansInOrder(e);
  }

  lemma OrdinalsFollowOffsets(e: Entry, spans: seq<Span>, first: SourceSpan, last: SourceSpan)
    requires InOrder(spans, |e.text|) && IssuedFrom(e, spans, first) && IssuedFrom(e, spans, last)
    ensures first.id.start <= last.id.start <==> first.ordinal <= last.ordinal
    ensures first.id.start <= last.id.start <==> first.id.end <= last.id.end
    ensures first.id.start < first.id.end <= |first.text| && last.id.start < last.id.end <= |last.text| && first.text == last.text
  {
  }

  /** No resolved quote can fail a later containment check against the text it came from, even
      after it was stripped. */
  lemma QuoteContained(payload: Payload, scope: Scope, owner: string, field: Field, quote: string)
    requires ExactQuote(payload, scope, owner, field, quote)
    ensures exists e :: IsEntry(payload, e) && e.scope == scope && e.owner == owner && e.field == field
                        && Contains(quote, e.text) && Contains(Strip(quote), e.text)
  {
    var e, lo: nat, hi: nat :| QuotedFrom(payload, e, lo, hi, scope, owner, field, quote);
    SliceContained(e.text, lo, hi);
    StripKeepsNormal(quote);
    assert Contains(quote, e.text);
  }

  /** Only an education line can resolve to whitespace: every other quote starts and ends with
      a visible character, so stripping it changes nothing. */
  lemma QuoteTrimmed(payload: Payload, catalog: map<SourceId, SourceSpan>, range: Range, scope: Scope, owner: string, field: Field)
    requires IsCatalog(payload, catalog) && DistinctJobs(payload.jobs)
    requires Resolve(Some(range), catalog, scope, owner, Some(field)).Ok? && !(scope == ProfileScope && field == Education)
    ensures var q := Resolve(Some(range), catalog, scope, owner, Some(field)).value;
      q.Some? && q.value != "" && Strip(q.value) == q.value
  {
    var first, last := catalog[range.first], catalog[range.last];
    var e, spans := IssuedPair(payload, first, last);
    SegmentsChunked(e.text, 0);
    ChunkedTrimmed(e.text, 0, spans, SEGMENT_LIMIT);
    SliceTrimmed(e.text, spans, first.ordinal, last.ordinal);
  }

  lemma SliceTrimmed(text: string, spans: seq<Span>, i: nat, j: nat)
    requires TrimmedSpans(text, spans) && i < |spans| && j < |spans| && spans[i].lo < spans[j].hi
    ensures var q := text[spans[i].lo..spans[j].hi]; q != "" && Strip(q) == q
  {
    var q := text[spans[i].lo..spans[j].hi];
    assert q[0] == text[spans[i].lo] && q[|q| - 1] == text[spans[j].hi - 1];
    StripTrimmed(q);
  }
}
