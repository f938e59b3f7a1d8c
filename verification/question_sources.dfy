/** The catalog of exact passages a question is answered from, and when "the whole document was
    shown and lacks this fact" may be recorded. */
module QuestionSources {
  import opened Text
  import opened Wrappers
  import opened Chunks

  datatype Origin = Resume | Profile | Job

  /** The three things a recognised section heading supplies. */
  datatype Heading = Heading(section: string, kind: Option<string>)

  datatype Row = Row(origin: Origin, field: string, entryKind: Option<string>, beforeSections: bool, quote: string)

  /** A text offered to the catalog besides the document: a saved profile field or a job passage. */
  datatype Extra = Extra(origin: Origin, field: string, text: string)

  const MAX_CHARACTERS: nat := 24000
  const MAX_PASSAGES: nat := 64
  const PASSAGE_LIMIT: nat := 650

  // ----- str.splitlines(keepends=True)

  predicate IsLineBreak(c: char) {
    var n := c as int;
    0x0A <= n <= 0x0D || 0x1C <= n <= 0x1E || n == 0x85 || n == 0x2028 || n == 0x2029
  }

  /** One past the end of the line that starts at `i`, its terminator included. */
  function LineStop(text: string, i: nat): (r: nat)
    requires i < |text|
    ensures i < r <= |text|
    decreases |text| - i
  {
    if text[i] == '\r' && i + 1 < |text| && text[i + 1] == '\n' then i + 2
    else if IsLineBreak(text[i]) || i + 1 == |text| then i + 1
    else LineStop(text, i + 1)
  }

  /** A terminator at offset k: one break, or the pair of carriage return and line feed. */
  predicate Terminator(text: string, k: nat, stop: nat) {
    && k < stop <= |text|
    && if stop == k + 2 then text[k] == '\r' && text[k + 1] == '\n'
       else stop == k + 1 && text[k] in {'\n', '\U{b}', '\U{c}', '\r', '\U{1c}', '\U{1d}', '\U{1e}', '\U{85}', '\U{2028}', '\U{2029}'}
            && !(text[k] == '\r' && stop < |text| && text[stop] == '\n')
  }

  /** A line ends with the first terminator from its start on, or with the text. */
  lemma {:induction false} LineStopIs(text: string, i: nat) returns (k: nat)
    requires i < |text|
    ensures i <= k <= |text| && (forall j, stop :: i <= j < k ==> !Terminator(text, j, stop))
    ensures if k == |text| then LineStop(text, i) == |text| else Terminator(text, k, LineStop(text, i))
    decreases |text| - i
  {
    if LineStop(text, i) > i + 1 && !(text[i] == '\r' && i + 1 < |text| && text[i + 1] == '\n') {
      k := LineStopIs(text, i + 1);
    } else {
      k := if IsLineBreak(text[i]) then i else |text|;
    }
  }

  // ----- the catalog

  ghost predicate ExactPassage(text: string, quote: string, s: Span) {
    s.lo <= s.hi <= |text| && quote == text[s.lo..s.hi]
  }

  /** Offset `k` of `text` lies in a passage that the catalog holds word for word, as a passage of
      this origin. */
  ghost predicate Shown(rows: seq<Row>, origin: Origin, text: string, k: nat) {
    exists i, s: Span :: 0 <= i < |rows| && ShownBy(rows[i], origin, text, s) && s.lo <= k < s.hi
  }

  ghost predicate ShownBy(row: Row, origin: Origin, text: string, s: Span) {
    row.origin == origin && ExactPassage(text, row.quote, s)
  }

  ghost predicate AllShown(rows: seq<Row>, origin: Origin, text: string) {
    forall k :: 0 <= k < |text| && !IsSpace(text[k]) ==> Shown(rows, origin, text, k)
  }

  ghost predicate ShownUpTo(rows: seq<Row>, origin: Origin, text: string, hi: nat)
    requires hi <= |text|
  {
    forall k :: 0 <= k < hi && !IsSpace(text[k]) ==> Shown(rows, origin, text, k)
  }

  /** Every row from `n` on comes from the document, word for word. */
  ghost predicate DocumentRows(rows: seq<Row>, n: nat, text: string) {
    forall i :: n <= i < |rows| ==> rows[i].origin == Resume && In(rows[i].quote, text)
  }

  predicate Same(row: Row, origin: Origin, field: string, quote: string) {
    row.origin == origin && row.field == field && row.quote == quote
  }

  predicate Seen(rows: seq<Row>, origin: Origin, field: string, quote: string) {
    exists i :: 0 <= i < |rows| && Same(rows[i], origin, field, quote)
  }

  ghost predicate NoRepeats(rows: seq<Row>) {
    forall i, j :: 0 <= i < j < |rows| ==>
      !(rows[i].origin == rows[j].origin && rows[i].field == rows[j].field && rows[i].quote == rows[j].quote)
  }

  class Catalog {
    var rows: seq<Row>
    var truncated: bool

    ghost predicate Valid() reads this {
      |rows| <= MAX_PASSAGES && NoRepeats(rows) && forall i :: 0 <= i < |rows| ==> |rows[i].quote| <= PASSAGE_LIMIT
    }

    constructor (tooLong: bool)
      ensures Valid() && rows == [] && truncated == tooLong
    {
      rows, truncated := [], tooLong;
    }

    /** One turn of the nested `add`: an unseen quote is appended; a full catalog reports
        truncation instead. */
    method AddQuote(like: Row, quote: string) returns (full: bool)
      requires Valid() && |quote| <= PASSAGE_LIMIT
      modifies this
      ensures Valid()
      ensures full == (!Seen(old(rows), like.origin, like.field, quote) && |old(rows)| == MAX_PASSAGES)
      ensures truncated == (old(truncated) || full)
      ensures rows == if full || Seen(old(rows), like.origin, like.field, quote) then old(rows) else old(rows) + [like.(quote := quote)]
      ensures !full ==> Seen(rows, like.origin, like.field, quote)
    {
      full := false;
      if !Seen(rows, like.origin, like.field, quote) {
        if |rows| >= MAX_PASSAGES {
          truncated := true;
          return true;
        }
        rows := rows + [like.(quote := quote)];
        assert Same(rows[|rows| - 1], like.origin, like.field, quote);
      }
    }

    /** The loop of the nested `add`; `full` says it stopped early. */
    method AddQuotes(like: Row, text: string, quotes: seq<string>) returns (full: bool)
      requires Valid() && AllPassages(quotes, text)
      modifies this
      ensures Valid() && old(rows) <= rows
      ensures truncated == (old(truncated) || full) && (full ==> |rows| == MAX_PASSAGES)
      ensures NewRows(rows, |old(rows)|, like, text)
      ensures !full ==> AllSeen(rows, like, quotes, |quotes|)
    {
      var i := 0;
      while i < |quotes|
        invariant 0 <= i <= |quotes|
        invariant Valid() && old(rows) <= rows && truncated == old(truncated)
        invariant NewRows(rows, |old(rows)|, like, text)
        invariant AllSeen(rows, like, quotes, i)
      {
        ghost var before := rows;
        full := AddQuote(like, quotes[i]);
        if full {
          return;
        }
        SeenLater(before, rows, like, quotes, i);
        i := i + 1;
      }
      full := false;
    }

    /** The nested `add`: the unseen passages of one text are appended, until the catalog is
        full. `like` carries the metadata every new row shares. */
    method Add(like: Row, text: string)
      requires Valid()
      modifies this
      ensures Valid() && old(rows) <= rows
      ensures old(truncated) ==> truncated
      ensures truncated && !old(truncated) ==> |rows| == MAX_PASSAGES
      ensures NewRows(rows, |old(rows)|, like, text)
      ensures !truncated ==> AllShown(rows, like.origin, text) && Listed(rows, like.origin, like.field, text)
    {
      var quotes := BoundedPassages(text, PASSAGE_LIMIT);
      ghost var spans := PassageSpans(text, 0, PASSAGE_LIMIT);
      PassagesChunked(text, 0, PASSAGE_LIMIT);
      QuotesExact(text, spans);
      var full := AddQuotes(like, text, quotes);
      if !full {
        CoveredIsShown(rows, text, like, quotes, spans);
        SeenIsListed(rows, like, text);
      }
    }
  }

  ghost function Passages(text: string): seq<string> {
    PassagesChunked(text, 0, PASSAGE_LIMIT);
    Quotes(text, PassageSpans(text, 0, PASSAGE_LIMIT))
  }

  ghost predicate ListedQuote(rows: seq<Row>, origin: Origin, field: string, quote: string) {
    exists i :: 0 <= i < |rows| && rows[i].origin == origin && rows[i].field == field && rows[i].quote == quote
  }

  /** Every passage of the text is listed under this origin and field. */
  ghost predicate Listed(rows: seq<Row>, origin: Origin, field: string, text: string) {
    forall q :: q in Passages(text) ==> ListedQuote(rows, origin, field, q)
  }

  lemma SeenIsListed(rows: seq<Row>, like: Row, text: string)
    requires AllSeen(rows, like, Passages(text), |Passages(text)|)
    ensures Listed(rows, like.origin, like.field, text)
  {
    var quotes := Passages(text);
    hide Passages;
    forall q | q in quotes
      ensures ListedQuote(rows, like.origin, like.field, q)
    {
      var j :| 0 <= j < |quotes| && quotes[j] == q;
      assert Seen(rows, like.origin, like.field, quotes[j]);
    }
  }

  lemma ListedLater(rows: seq<Row>, more: seq<Row>, origin: Origin, field: string, text: string)
    requires rows <= more && Listed(rows, origin, field, text)
    ensures Listed(more, origin, field, text)
  {
    hide Passages;
    forall q | q in Passages(text)
      ensures ListedQuote(more, origin, field, q)
    {
      var i :| 0 <= i < |rows| && rows[i].origin == origin && rows[i].field == field && rows[i].quote == q;
      assert more[i] == rows[i];
    }
  }

  ghost predicate AllPassages(quotes: seq<string>, text: string) {
    forall i :: 0 <= i < |quotes| ==> |quotes[i]| <= PASSAGE_LIMIT && quotes[i] != "" && In(quotes[i], text)
  }

  /** Every row from `n` on carries the shared metadata and a nonempty exact slice of `text`. */
  ghost predicate NewRows(rows: seq<Row>, n: nat, like: Row, text: string) {
    forall j :: n <= j < |rows| ==> rows[j] == like.(quote := rows[j].quote) && rows[j].quote != "" && In(rows[j].quote, text)
  }

  ghost predicate AllSeen(rows: seq<Row>, like: Row, quotes: seq<string>, n: nat)
    requires n <= |quotes|
  {
    forall j :: 0 <= j < n ==> Seen(rows, like.origin, like.field, quotes[j])
  }

  lemma QuotesExact(text: string, spans: seq<Span>)
    requires Chunked(text, 0, spans, PASSAGE_LIMIT) && InText(text, spans)
    ensures AllPassages(Quotes(text, spans), text)
  {
    forall i | 0 <= i < |spans|
      ensures |Quotes(text, spans)[i]| <= PASSAGE_LIMIT && Quotes(text, spans)[i] != "" && In(Quotes(text, spans)[i], text)
    {
      assert GoodSpan(text, 0, spans[i], PASSAGE_LIMIT);
      SliceIn(text, spans[i].lo, spans[i].hi);
    }
  }

  lemma SeenLater(before: seq<Row>, after: seq<Row>, like: Row, quotes: seq<string>, n: nat)
    requires before <= after && n <= |quotes| && AllSeen(before, like, quotes, n)
    ensures AllSeen(after, like, quotes, n)
  {
    forall j | 0 <= j < n
      ensures Seen(after, like.origin, like.field, quotes[j])
    {
      var i :| 0 <= i < |before| && Same(before[i], like.origin, like.field, quotes[j]);
      assert Same(after[i], like.origin, like.field, quotes[j]);
    }
  }

  lemma CoveredIsShown(rows: seq<Row>, text: string, like: Row, quotes: seq<string>, spans: seq<Span>)
    requires Chunked(text, 0, spans, PASSAGE_LIMIT) && InText(text, spans) && quotes == Quotes(text, spans)
    requires AllSeen(rows, like, quotes, |quotes|)
    ensures AllShown(rows, like.origin, text)
  {
    forall k | 0 <= k < |text| && !IsSpace(text[k])
      ensures Shown(rows, like.origin, text, k)
    {
      assert Covered(spans, k);
      var j :| 0 <= j < |spans| && spans[j].lo <= k < spans[j].hi;
      assert Seen(rows, like.origin, like.field, quotes[j]);
      var i :| 0 <= i < |rows| && Same(rows[i], like.origin, like.field, quotes[j]);
      assert ShownBy(rows[i], like.origin, text, spans[j]);
    }
  }

  /** Passages of a contiguous block are passages of the whole text, and stay shown as the
      catalog grows. */
  lemma ShownInWhole(rows: seq<Row>, more: seq<Row>, origin: Origin, text: string, lo: nat, hi: nat)
    requires lo <= hi <= |text| && AllShown(rows, origin, text[lo..hi]) && rows <= more
    ensures forall k :: lo <= k < hi && !IsSpace(text[k]) ==> Shown(more, origin, text, k)
  {
    var block := text[lo..hi];
    forall k | lo <= k < hi && !IsSpace(text[k])
      ensures Shown(more, origin, text, k)
    {
      assert block[k - lo] == text[k];
      assert Shown(rows, origin, block, k - lo);
      var i, s: Span :| 0 <= i < |rows| && ShownBy(rows[i], origin, block, s) && s.lo <= k - lo < s.hi;
      SliceOfSlice(text, lo, hi, s.lo, s.hi);
      assert ShownBy(more[i], origin, text, Span(lo + s.lo, lo + s.hi));
    }
  }

  lemma ShownLater(rows: seq<Row>, more: seq<Row>, origin: Origin, text: string, hi: nat)
    requires rows <= more && hi <= |text|
    requires ShownUpTo(rows, origin, text, hi)
    ensures ShownUpTo(more, origin, text, hi)
  {
    forall k | 0 <= k < hi && !IsSpace(text[k])
      ensures Shown(more, origin, text, k)
    {
      assert Shown(rows, origin, text, k);
      var i, s: Span :| 0 <= i < |rows| && ShownBy(rows[i], origin, text, s) && s.lo <= k < s.hi;
      assert more[i] == rows[i];
    }
  }

  lemma AllShownLater(rows: seq<Row>, more: seq<Row>, origin: Origin, text: string)
    requires rows <= more && AllShown(rows, origin, text)
    ensures AllShown(more, origin, text)
  {
    hide Shown;
    ShownLater(rows, more, origin, text, |text|);
  }

  // ----- the section a document row belongs to

  /** Offset m starts a line, counting lines from `start` on. */
  ghost predicate StartsLine(text: string, start: nat, m: nat)
    decreases |text| - start
  {
    start == m || (start < |text| && StartsLine(text, LineStop(text, start), m))
  }

  ghost predicate LineAt(text: string, m: nat) {
    StartsLine(text, 0, m)
  }

  lemma {:induction false} NextLine(text: string, start: nat, at: nat)
    requires StartsLine(text, start, at) && at < |text|
    ensures StartsLine(text, start, LineStop(text, at))
    decreases |text| - start
  {
    if start != at {
      NextLine(text, LineStop(text, start), at);
    }
  }

  lemma {:induction false} LinesGrow(text: string, start: nat, m: nat)
    requires StartsLine(text, start, m)
    ensures start <= m
    decreases |text| - start
  {
    if start != m {
      LinesGrow(text, LineStop(text, start), m);
    }
  }

  /** No line starts inside another. */
  lemma {:induction false} NoLineInside(text: string, start: nat, at: nat, m: nat)
    requires StartsLine(text, start, at) && StartsLine(text, start, m) && at < m
    ensures at < |text| && LineStop(text, at) <= m
    decreases |text| - start
  {
    LinesGrow(text, start, at);
    if start == at {
      LinesGrow(text, LineStop(text, at), m);
    } else {
      NoLineInside(text, LineStop(text, start), at, m);
    }
  }

  function HeadingAt(text: string, heading: string -> Option<Heading>, m: nat): Option<Heading> {
    if m < |text| then heading(Strip(text[m..LineStop(text, m)])) else None
  }

  /** No line that starts after lo and before hi is a heading. */
  ghost predicate NoHeadingIn(text: string, heading: string -> Option<Heading>, lo: nat, hi: nat) {
    forall m :: lo < m < hi && LineAt(text, m) ==> HeadingAt(text, heading, m).None?
  }

  /** Line m is the last heading up to lo. */
  ghost predicate LastHeading(text: string, heading: string -> Option<Heading>, lo: nat, m: nat) {
    m <= lo && LineAt(text, m) && HeadingAt(text, heading, m).Some? && NoHeadingIn(text, heading, m, lo + 1)
  }

  /** What the last heading up to lo supplies, or what holds before all headings. */
  ghost predicate InForce(text: string, heading: string -> Option<Heading>, lo: nat, section: string, kind: Option<string>, before: bool) {
    if before then
      section == "document" && kind.None? && HeadingAt(text, heading, 0).None? && NoHeadingIn(text, heading, 0, lo + 1)
    else exists m :: LastHeading(text, heading, lo, m) && Supplies(HeadingAt(text, heading, m), section, kind)
  }

  predicate Supplies(found: Option<Heading>, section: string, kind: Option<string>) {
    found.Some? && kind == found.value.kind && section == if |found.value.section| > 0 then found.value.section else "document"
  }

  /** The row's passage lies in a run of lines without a heading inside, and the row carries what the last
      heading up to that run supplies. */
  ghost predicate Placed(text: string, heading: string -> Option<Heading>, row: Row) {
    exists lo, hi :: PlacedIn(text, heading, row, lo, hi)
  }

  ghost predicate PlacedIn(text: string, heading: string -> Option<Heading>, row: Row, lo: nat, hi: nat) {
    && lo <= hi <= |text| && In(row.quote, text[lo..hi]) && LineAt(text, lo) && NoHeadingIn(text, heading, lo, hi)
    && InForce(text, heading, lo, row.field, row.entryKind, row.beforeSections)
  }

  ghost predicate AllPlaced(text: string, heading: string -> Option<Heading>, rows: seq<Row>, n: nat) {
    forall j :: n <= j < |rows| ==> Placed(text, heading, rows[j])
  }

  lemma InForceLater(text: string, heading: string -> Option<Heading>, lo: nat, at: nat, section: string, kind: Option<string>, before: bool)
    requires lo <= at && InForce(text, heading, lo, section, kind, before)
    requires NoHeadingIn(text, heading, lo, at + 1)
    ensures InForce(text, heading, at, section, kind, before)
  {
    hide HeadingAt, LineAt;
    if !before {
      var m :| LastHeading(text, heading, lo, m) && Supplies(HeadingAt(text, heading, m), section, kind);
      assert LastHeading(text, heading, at, m);
    }
  }

  /** One more line without a heading. */
  lemma NoHeadingGrows(text: string, heading: string -> Option<Heading>, lo: nat, at: nat)
    requires at < |text| && LineAt(text, at) && lo <= at && NoHeadingIn(text, heading, lo, at)
    requires lo < at ==> HeadingAt(text, heading, at).None?
    ensures NoHeadingIn(text, heading, lo, LineStop(text, at)) && LineAt(text, LineStop(text, at))
  {
    NextLine(text, 0, at);
    hide HeadingAt;
    forall m | lo < m < LineStop(text, at) && LineAt(text, m)
      ensures HeadingAt(text, heading, m).None?
    {
      if at < m {
        NoLineInside(text, 0, at, m);
      }
    }
  }

  lemma BlockPlaced(text: string, heading: string -> Option<Heading>, rows: seq<Row>, held: seq<Row>, n: nat, like: Row, lo: nat, hi: nat)
    requires n <= |held| && held <= rows && AllPlaced(text, heading, held, n) && lo <= hi <= |text| && NewRows(rows, |held|, like, text[lo..hi])
    requires LineAt(text, lo) && NoHeadingIn(text, heading, lo, hi)
    requires lo < hi ==> InForce(text, heading, lo, like.field, like.entryKind, like.beforeSections)
    ensures AllPlaced(text, heading, rows, n)
  {
    hide InForce, NoHeadingIn, LineAt;
    forall j | n <= j < |rows|
      ensures Placed(text, heading, rows[j])
    {
      if j < |held| {
        assert rows[j] == held[j];
      } else {
        assert lo < hi by {
          assert In(rows[j].quote, text[lo..hi]) && rows[j].quote != "";
        }
        assert PlacedIn(text, heading, rows[j], lo, hi);
      }
    }
  }

  /** The document part: lines are gathered into blocks at headings and blank lines, and each
      block is added under the section it falls in. `heading` is the section recogniser. */
  method AddDocument(catalog: Catalog, text: string, heading: string -> Option<Heading>)
    requires catalog.Valid()
    modifies catalog
    ensures catalog.Valid() && old(catalog.rows) <= catalog.rows
    ensures old(catalog.truncated) ==> catalog.truncated
    ensures catalog.truncated && !old(catalog.truncated) ==> |catalog.rows| == MAX_PASSAGES
    ensures DocumentRows(catalog.rows, |old(catalog.rows)|, text)
    ensures !catalog.truncated ==> AllShown(catalog.rows, Resume, text)
    ensures AllPlaced(text, heading, catalog.rows, |old(catalog.rows)|)
  {
    hide ShownUpTo, Strip, AllPlaced, InForce, NoHeadingIn, LineAt, NewRows, AllShown, HeadingAt;
    ghost var before := catalog.rows;
    ShownFromStart(catalog.rows, text);
    NothingPlaced(text, heading, before);
    var section, kind, beforeSections := "document", None, true;
    var blockStart, at := 0, 0;
    while at < |text|
      invariant 0 <= blockStart <= at <= |text|
      invariant catalog.Valid() && old(catalog.rows) <= catalog.rows
      invariant old(catalog.truncated) ==> catalog.truncated
      invariant catalog.truncated && !old(catalog.truncated) ==> |catalog.rows| == MAX_PASSAGES
      invariant DocumentRows(catalog.rows, |old(catalog.rows)|, text)
      invariant !catalog.truncated ==> ShownUpTo(catalog.rows, Resume, text, blockStart)
      invariant AllPlaced(text, heading, catalog.rows, |before|) && before <= catalog.rows
      invariant LineAt(text, at) && LineAt(text, blockStart) && NoHeadingIn(text, heading, blockStart, at)
      invariant if at == 0 then blockStart == 0 && section == "document" && kind.None? && beforeSections
                else blockStart < at && InForce(text, heading, blockStart, section, kind, beforeSections)
    {
      var stop := LineStop(text, at);
      var found := heading(Strip(text[at..stop]));
      LineIs(text, heading, at, blockStart, section, kind, beforeSections);
      if found.Some? || (Strip(text[at..stop]) == "" && !beforeSections) {
        ghost var held := catalog.rows;
        AddBlock(catalog, text, blockStart, at, section, kind, beforeSections);
        BlockPlaced(text, heading, catalog.rows, held, |before|, Row(Resume, section, kind, beforeSections, ""), blockStart, at);
        blockStart := at;
        if found.Some? {
          beforeSections := false;
          section := if found.value.section == "" then "document" else found.value.section;
          kind := found.value.kind;
        }
      }
      at := stop;
    }
    ghost var held := catalog.rows;
    AddBlock(catalog, text, blockStart, at, section, kind, beforeSections);
    BlockPlaced(text, heading, catalog.rows, held, |before|, Row(Resume, section, kind, beforeSections, ""), blockStart, at);
    ShownFromStart(catalog.rows, text);
  }

  lemma NothingPlaced(text: string, heading: string -> Option<Heading>, rows: seq<Row>)
    ensures AllPlaced(text, heading, rows, |rows|) && LineAt(text, 0) && NoHeadingIn(text, heading, 0, 0)
  {
  }

  /** What the line at `at` does to the block and the section: a heading starts a new one of each, a blank
      line at most a new block. */
  lemma LineIs(text: string, heading: string -> Option<Heading>, at: nat, lo: nat, section: string, kind: Option<string>, before: bool)
    requires lo <= at < |text| && LineAt(text, at) && NoHeadingIn(text, heading, lo, at)
    requires if at == 0 then lo == 0 && section == "document" && kind.None? && before else lo < at && InForce(text, heading, lo, section, kind, before)
    ensures var stop := LineStop(text, at); var found := heading(Strip(text[at..stop]));
      && found == HeadingAt(text, heading, at) && LineAt(text, stop) && NoHeadingIn(text, heading, at, at) && NoHeadingIn(text, heading, at, stop)
      && (found.None? ==> NoHeadingIn(text, heading, lo, stop) && InForce(text, heading, lo, section, kind, before) && InForce(text, heading, at, section, kind, before))
      && (found.Some? ==>
            InForce(text, heading, at, if found.value.section == "" then "document" else found.value.section, found.value.kind, false))
  {
    hide Strip;
    var found := HeadingAt(text, heading, at);
    assert NoHeadingIn(text, heading, at, at);
    NoHeadingGrows(text, heading, at, at);
    hide LineAt;
    if found.None? {
      NoHeadingGrows(text, heading, lo, at);
      if at > 0 {
        InForceLater(text, heading, lo, at, section, kind, before);
      }
    } else {
      assert LastHeading(text, heading, at, at);
    }
  }

  lemma ShownFromStart(rows: seq<Row>, text: string)
    ensures ShownUpTo(rows, Resume, text, 0) && DocumentRows(rows, |rows|, text)
    ensures ShownUpTo(rows, Resume, text, |text|) ==> AllShown(rows, Resume, text)
  {
  }

  /** Adds `text[lo..hi]`; everything before `hi` is then shown if everything before `lo` was. */
  method AddBlock(catalog: Catalog, text: string, lo: nat, hi: nat, section: string, kind: Option<string>, beforeSections: bool)
    requires catalog.Valid() && lo <= hi <= |text|
    requires !catalog.truncated ==> ShownUpTo(catalog.rows, Resume, text, lo)
    modifies catalog
    ensures catalog.Valid() && old(catalog.rows) <= catalog.rows
    ensures old(catalog.truncated) ==> catalog.truncated
    ensures catalog.truncated && !old(catalog.truncated) ==> |catalog.rows| == MAX_PASSAGES
    ensures DocumentRows(catalog.rows, |old(catalog.rows)|, text)
    ensures !catalog.truncated ==> ShownUpTo(catalog.rows, Resume, text, hi)
    ensures NewRows(catalog.rows, |old(catalog.rows)|, Row(Resume, section, kind, beforeSections, ""), text[lo..hi])
  {
    catalog.Add(Row(Resume, section, kind, beforeSections, ""), text[lo..hi]);
    SliceIn(text, lo, hi);
    forall i | |old(catalog.rows)| <= i < |catalog.rows|
      ensures In(catalog.rows[i].quote, text)
    {
      InTransitive(catalog.rows[i].quote, text[lo..hi], text);
    }
    if !catalog.truncated {
      ShownLater(old(catalog.rows), catalog.rows, Resume, text, lo);
      ShownInWhole(catalog.rows, catalog.rows, Resume, text, lo, hi);
    }
  }

  // ----- what a model answer "missing" is recorded as

  datatype MissingEntry = MissingEntry(errorCode: string, modelMissing: bool)

  /** `_question_answer` for the disposition `missing`. */
  function RecordMissing(truncated: bool): MissingEntry {
    MissingEntry(if truncated then "context_truncated" else "model_confirmed_missing", !truncated)
  }

  /** The part of a document that is read. */
  function Read(text: string): string {
    if |text| > MAX_CHARACTERS then text[..MAX_CHARACTERS] else text
  }

  /** `_question_sources`. A fact is recorded as confirmed missing only if every character of
      the whole document that is not whitespace was in front of the model in a passage of the
      document itself, and the catalog is reported cut short only when the document is too long or the catalog is full. */
  method Build(document: Option<string>, heading: string -> Option<Heading>, extras: seq<Extra>)
    returns (rows: seq<Row>, truncated: bool)
    requires forall e :: e in extras ==> e.origin != Resume
    ensures forall i :: 0 <= i < |rows| && rows[i].origin == Resume ==> document.Some? && In(rows[i].quote, document.value)
    ensures document.Some? ==>
      var read := if |document.value| <= 24000 then document.value else document.value[..24000];
      forall i :: 0 <= i < |rows| && rows[i].origin == Resume ==> Placed(read, heading, rows[i])
    ensures |rows| <= MAX_PASSAGES && NoRepeats(rows)
    ensures forall i :: 0 <= i < |rows| ==> |rows[i].quote| <= PASSAGE_LIMIT
    ensures document.Some? && RecordMissing(truncated).modelMissing ==> AllShown(rows, Resume, document.value)
    ensures !truncated ==> forall e :: e in extras ==> AllShown(rows, e.origin, e.text) && Listed(rows, e.origin, e.field, e.text)
    ensures RecordMissing(truncated) == MissingEntry("context_truncated", false) <==> truncated
    ensures RecordMissing(truncated) == MissingEntry("model_confirmed_missing", true) <==> !truncated
    ensures truncated ==> (document.Some? && |document.value| > MAX_CHARACTERS) || |rows| == MAX_PASSAGES
  {
    hide Listed, AllShown, NoRepeats, Shown, Placed;
    var text := if document.Some? then document.value else "";
    var catalog := new Catalog(|text| > MAX_CHARACTERS);
    if document.Some? {
      var shown := Read(text);
      AddDocument(catalog, shown, heading);
      SliceIn(text, 0, |shown|);
      forall j | 0 <= j < |catalog.rows|
        ensures In(catalog.rows[j].quote, text)
      {
        InTransitive(catalog.rows[j].quote, shown, text);
      }
    }
    ghost var afterDocument := catalog.rows;
    var i := 0;
    while i < |extras|
      invariant 0 <= i <= |extras| && catalog.Valid() && afterDocument <= catalog.rows
      invariant forall j :: 0 <= j < |catalog.rows| && catalog.rows[j].origin == Resume ==> document.Some? && In(catalog.rows[j].quote, text)
      invariant forall j :: 0 <= j < |catalog.rows| && catalog.rows[j].origin == Resume ==> Placed(Read(text), heading, catalog.rows[j])
      invariant |text| > MAX_CHARACTERS ==> catalog.truncated
      invariant catalog.truncated ==> |text| > MAX_CHARACTERS || |catalog.rows| == MAX_PASSAGES
      invariant !catalog.truncated && document.Some? ==> AllShown(afterDocument, Resume, text)
      invariant !catalog.truncated ==> forall j :: 0 <= j < i ==> AllShown(catalog.rows, extras[j].origin, extras[j].text)
      invariant !catalog.truncated ==> forall j :: 0 <= j < i ==> Listed(catalog.rows, extras[j].origin, extras[j].field, extras[j].text)
    {
      ghost var before := catalog.rows;
      catalog.Add(Row(extras[i].origin, extras[i].field, None, false, ""), extras[i].text);
      if !catalog.truncated {
        forall j | 0 <= j < i
          ensures AllShown(catalog.rows, extras[j].origin, extras[j].text)
          ensures Listed(catalog.rows, extras[j].origin, extras[j].field, extras[j].text)
        {
          ListedLater(before, catalog.rows, extras[j].origin, extras[j].field, extras[j].text);
          AllShownLater(before, catalog.rows, extras[j].origin, extras[j].text);
        }
      }
      i := i + 1;
    }
    rows, truncated := catalog.rows, catalog.truncated;
    if !truncated && document.Some? {
      AllShownLater(afterDocument, rows, Resume, text);
    }
  }
}
