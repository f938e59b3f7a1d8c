/** The two chunkers that cut saved text and job text into exact, bounded, citable slices. */
module Chunks {
  import opened Text
  import opened Wrappers

  /** A half-open range of offsets into the original text. */
  datatype Span = Span(lo: nat, hi: nat)

  /** What both chunkers owe their callers, for the part of `text` from `from` on: trimmed,
      bounded, ordered, disjoint slices that miss nothing but whitespace. */
  ghost predicate Chunked(text: string, from: nat, spans: seq<Span>, limit: nat) {
    && (forall i :: 0 <= i < |spans| ==> GoodSpan(text, from, spans[i], limit))
    && Ordered(spans)
    && (forall k :: from <= k < |text| && !IsSpace(text[k]) ==> Covered(spans, k))
  }

  ghost predicate Ordered(spans: seq<Span>) {
    forall i, j :: 0 <= i < j < |spans| ==> spans[i].hi <= spans[j].lo
  }

  ghost predicate GoodSpan(text: string, from: nat, s: Span, limit: nat) {
    from <= s.lo < s.hi <= |text| && s.hi - s.lo <= limit && !IsSpace(text[s.lo]) && !IsSpace(text[s.hi - 1])
  }

  ghost predicate Covered(spans: seq<Span>, k: nat) {
    exists i :: 0 <= i < |spans| && spans[i].lo <= k < spans[i].hi
  }

  ghost predicate TrimmedSpans(text: string, spans: seq<Span>) {
    forall i :: 0 <= i < |spans| ==>
      spans[i].lo < spans[i].hi <= |text| && !IsSpace(text[spans[i].lo]) && !IsSpace(text[spans[i].hi - 1])
  }

  lemma ChunkedTrimmed(text: string, from: nat, spans: seq<Span>, limit: nat)
    requires Chunked(text, from, spans, limit)
    ensures TrimmedSpans(text, spans)
  {
    forall i | 0 <= i < |spans|
      ensures spans[i].lo < spans[i].hi <= |text| && !IsSpace(text[spans[i].lo]) && !IsSpace(text[spans[i].hi - 1])
    {
      assert GoodSpan(text, from, spans[i], limit);
    }
  }

  /** "Exactly once": two spans that share an offset are the same span. */
  lemma CoveredOnce(text: string, spans: seq<Span>, limit: nat, i: nat, j: nat, k: nat)
    requires Chunked(text, 0, spans, limit)
    requires i < |spans| && j < |spans|
    requires spans[i].lo <= k < spans[i].hi && spans[j].lo <= k < spans[j].hi
    ensures i == j
  {
  }

  // ----- trimming the two ends of a piece

  predicate SpaceBetween(text: string, lo: nat, hi: nat)
    requires lo <= hi <= |text|
  {
    forall k :: lo <= k < hi ==> IsSpace(text[k])
  }

  function SkipSpace(text: string, i: nat, hi: nat): (r: nat)
    requires i <= hi <= |text|
    ensures i <= r <= hi && SpaceBetween(text, i, r) && (r < hi ==> !IsSpace(text[r]))
    decreases hi - i
  {
    if i < hi && IsSpace(text[i]) then SkipSpace(text, i + 1, hi) else i
  }

  function BackSpace(text: string, lo: nat, i: nat): (r: nat)
    requires lo <= i <= |text|
    ensures lo <= r <= i && SpaceBetween(text, r, i) && (lo < r ==> !IsSpace(text[r - 1]))
    decreases i
  {
    if lo < i && IsSpace(text[i - 1]) then BackSpace(text, lo, i - 1) else i
  }

  /** The piece `text[start..end]` without the whitespace at its ends; nothing when that
      leaves nothing. */
  function Trimmed(text: string, start: nat, end: nat): (r: seq<Span>)
    requires start <= end <= |text|
    ensures |r| <= 1
    ensures r != [] ==> start <= r[0].lo < r[0].hi <= end && !IsSpace(text[r[0].lo]) && !IsSpace(text[r[0].hi - 1])
    ensures forall k :: start <= k < end && !IsSpace(text[k]) ==> r != [] && r[0].lo <= k < r[0].hi
  {
    var lo := SkipSpace(text, start, end);
    var hi := BackSpace(text, lo, end);
    if lo < hi then [Span(lo, hi)] else []
  }

  /** Taking the next piece off the front keeps the whole list well chunked. */
  lemma ConsChunked(text: string, start: nat, mid: nat, next: nat, rest: seq<Span>, limit: nat)
    requires start <= mid <= next <= |text| && mid - start <= limit
    requires SpaceBetween(text, mid, next)
    requires Chunked(text, next, rest, limit)
    ensures Chunked(text, start, Trimmed(text, start, mid) + rest, limit)
  {
    var head := Trimmed(text, start, mid);
    ConsGood(text, start, mid, next, head, rest, limit);
    ConsCovers(text, start, mid, next, head, rest);
    hide GoodSpan, IsSpace, Covered, Trimmed, SpaceBetween;
    ConsOrdered(next, head, rest);
  }

  lemma ConsGood(text: string, start: nat, mid: nat, next: nat, head: seq<Span>, rest: seq<Span>, limit: nat)
    requires start <= mid <= next <= |text| && mid - start <= limit && head == Trimmed(text, start, mid)
    requires forall i :: 0 <= i < |rest| ==> GoodSpan(text, next, rest[i], limit)
    ensures forall i :: 0 <= i < |head + rest| ==> GoodSpan(text, start, (head + rest)[i], limit)
    ensures |head| <= 1 && (head != [] ==> head[0].hi <= next)
    ensures forall i :: 0 <= i < |rest| ==> next <= rest[i].lo
  {
    hide IsSpace;
    assert head != [] ==> GoodSpan(text, start, head[0], limit);
    hide Trimmed;
    forall i | 0 <= i < |rest|
      ensures next <= rest[i].lo && GoodSpan(text, start, rest[i], limit)
    {
      assert GoodSpan(text, next, rest[i], limit);
    }
    hide GoodSpan;
    forall i | 0 <= i < |head + rest|
      ensures GoodSpan(text, start, (head + rest)[i], limit)
    {
      assert (head + rest)[i] == if i < |head| then head[i] else rest[i - |head|];
    }
  }

  lemma ConsCovers(text: string, start: nat, mid: nat, next: nat, head: seq<Span>, rest: seq<Span>)
    requires start <= mid <= next <= |text| && SpaceBetween(text, mid, next) && head == Trimmed(text, start, mid)
    requires forall k :: next <= k < |text| && !IsSpace(text[k]) ==> Covered(rest, k)
    ensures forall k :: start <= k < |text| && !IsSpace(text[k]) ==> Covered(head + rest, k)
  {
    hide IsSpace, Covered;
    forall k: nat | start <= k < |text| && !IsSpace(text[k])
      ensures Covered(head + rest, k)
    {
      if k < mid {
        CoveredByHead(head, rest, k);
      } else {
        assert k >= next;
        CoveredAfter(head, rest, k);
      }
    }
  }

  lemma CoveredByHead(head: seq<Span>, rest: seq<Span>, k: nat)
    requires head != [] && head[0].lo <= k < head[0].hi
    ensures Covered(head + rest, k)
  {
    assert (head + rest)[0] == head[0];
  }

  lemma ConsOrdered(next: nat, head: seq<Span>, rest: seq<Span>)
    requires |head| <= 1 && (head != [] ==> head[0].hi <= next)
    requires Ordered(rest) && forall i :: 0 <= i < |rest| ==> next <= rest[i].lo
    ensures Ordered(head + rest)
  {
  }

  lemma CoveredAfter(head: seq<Span>, rest: seq<Span>, k: nat)
    requires Covered(rest, k)
    ensures Covered(head + rest, k)
  {
    var i :| 0 <= i < |rest| && rest[i].lo <= k < rest[i].hi;
    assert (head + rest)[|head| + i] == rest[i];
  }

  // ----- citations: `_segments`

  const SEGMENT_LIMIT: nat := 240

  predicate IsStop(c: char) {
    c in ".!?;:"
  }

  /** `\n` or `[.!?;:]\s` at `p`, inside the window that ends at `hi`. */
  predicate BreakAt(text: string, p: nat, hi: nat)
    requires p < hi <= |text|
  {
    text[p] == '\n' || (IsStop(text[p]) && p + 1 < hi && IsSpace(text[p + 1]))
  }

  /** First match of `\n|[.!?;:]\s+` at or after `p` in the window that ends at `hi`: its end. */
  function FirstBreak(text: string, p: nat, hi: nat): (r: Option<nat>)
    requires p <= hi <= |text|
    ensures r.None? ==> forall k :: p <= k < hi ==> !BreakAt(text, k, hi)
    ensures r.Some? ==> p < r.value <= hi && exists k :: p <= k < r.value && FirstBreakAt(text, p, k, hi, r.value)
    decreases hi - p
  {
    if p == hi then None
    else if BreakAt(text, p, hi) then
      var end := if text[p] == '\n' then p + 1 else SkipSpace(text, p + 1, hi);
      assert FirstBreakAt(text, p, p, hi, end);
      Some(end)
    else
      var r := FirstBreak(text, p + 1, hi);
      FirstBreakLater(text, p, p + 1, hi, r);
      r
  }

  lemma FirstBreakLater(text: string, p: nat, q: nat, hi: nat, r: Option<nat>)
    requires q == p + 1 && p < hi <= |text| && !BreakAt(text, p, hi)
    requires r.Some? ==> r.value <= hi && exists k :: q <= k < r.value && FirstBreakAt(text, q, k, hi, r.value)
    ensures r.Some? ==> exists k :: p <= k < r.value && FirstBreakAt(text, p, k, hi, r.value)
  {
    if r.Some? {
      var k :| q <= k < r.value && FirstBreakAt(text, q, k, hi, r.value);
      assert FirstBreakAt(text, p, k, hi, r.value);
    }
  }

  ghost predicate FirstBreakAt(text: string, p: nat, k: nat, hi: nat, end: nat)
    requires p <= k < hi <= |text|
  {
    && BreakAt(text, k, hi) && (forall j :: p <= j < k ==> !BreakAt(text, j, hi))
    && k < end <= hi && SpaceBetween(text, k + 1, end)
    && (text[k] == '\n' ==> end == k + 1)
    && (text[k] != '\n' && end < hi ==> !IsSpace(text[end]))
  }

  /** `str.rfind(c, lo, hi)`, for the characters in `cs`. */
  function LastOf(text: string, cs: string, lo: nat, hi: nat): (r: Option<nat>)
    requires hi <= |text|
    ensures r.Some? ==> lo <= r.value < hi && text[r.value] in cs && forall k :: r.value < k < hi ==> text[k] !in cs
    ensures r.None? ==> forall k :: lo <= k < hi ==> text[k] !in cs
    decreases hi
  {
    if hi <= lo then None
    else if text[hi - 1] in cs then Some(hi - 1)
    else LastOf(text, cs, lo, hi - 1)
  }

  /** Where the segment that starts at `start` ends: after the first sentence break within the
      window, else (unless the text ends first) after the last space at least sixty characters
      in, else at the window's end. */
  function SegmentEnd(text: string, start: nat): (r: nat)
    requires start < |text|
    ensures start < r <= |text| && r - start <= SEGMENT_LIMIT
  {
    var window := if start + SEGMENT_LIMIT < |text| then start + SEGMENT_LIMIT else |text|;
    match FirstBreak(text, start, window)
    case Some(e) => e
    case None =>
      if window < |text| then
        match LastOf(text, " ", start + 60, window)
        case Some(space) => space + 1
        case None => window
      else window
  }

  /** A segment never runs on past a sentence break, and is cut anywhere else only when 240
      characters hold no break at all. */
  lemma SegmentEndsAtBreak(text: string, start: nat)
    requires start < |text|
    ensures var end := SegmentEnd(text, start);
      var window := if start + SEGMENT_LIMIT < |text| then start + SEGMENT_LIMIT else |text|;
      if exists k :: start <= k < window && BreakAt(text, k, window)
      then exists k :: start <= k < end && FirstBreakAt(text, start, k, window, end)
      else end == |text| || end == window || (start + 60 < end && text[end - 1] == ' ')
  {
  }

  function SegmentSpans(text: string, start: nat): seq<Span>
    requires start <= |text|
    decreases |text| - start
  {
    if start == |text| then []
    else Trimmed(text, start, SegmentEnd(text, start)) + SegmentSpans(text, SegmentEnd(text, start))
  }

  lemma {:induction false} SegmentsChunked(text: string, start: nat)
    requires start <= |text|
    ensures Chunked(text, start, SegmentSpans(text, start), SEGMENT_LIMIT)
    decreases |text| - start
  {
    if start < |text| {
      var end := SegmentEnd(text, start);
      SegmentsChunked(text, end);
      ConsChunked(text, start, end, end, SegmentSpans(text, end), SEGMENT_LIMIT);
    }
  }

  /** The two trimming loops of both generators. */
  method TrimEnds(text: string, start: nat, boundary: nat) returns (left: nat, right: nat)
    requires start <= boundary <= |text|
    ensures start <= left <= right <= boundary
    ensures (if left < right then [Span(left, right)] else []) == Trimmed(text, start, boundary)
  {
    left, right := start, boundary;
    while left < right && IsSpace(text[left])
      invariant start <= left <= right == boundary
      invariant SkipSpace(text, left, boundary) == SkipSpace(text, start, boundary)
    {
      left := left + 1;
    }
    while right > left && IsSpace(text[right - 1])
      invariant left <= right <= boundary
      invariant BackSpace(text, left, right) == BackSpace(text, left, boundary)
      decreases right
    {
      right := right - 1;
    }
  }

  lemma Regroup<T>(done: seq<T>, tail: seq<T>, piece: seq<T>, rest: seq<T>)
    requires tail == piece + rest
    ensures (done + piece) + rest == done + tail
  {
  }

  /** `_segments`, as the generator runs. */
  method Segments(text: string) returns (spans: seq<Span>)
    ensures spans == SegmentSpans(text, 0)
  {
    spans := [];
    var start := 0;
    while start < |text|
      invariant start <= |text|
      invariant spans + SegmentSpans(text, start) == SegmentSpans(text, 0)
    {
      var boundary := SegmentEnd(text, start);
      var left, right := TrimEnds(text, start, boundary);
      Regroup(spans, SegmentSpans(text, start), Trimmed(text, start, boundary), SegmentSpans(text, boundary));
      if left < right {
        spans := spans + [Span(left, right)];
      } else {
        assert spans + [] == spans;
      }
      start := boundary;
    }
  }

  // ----- citations: education lines, `[^\r\n]+`

  function LineEnd(text: string, i: nat): (r: nat)
    requires i <= |text|
    ensures i <= r <= |text| && (r < |text| ==> text[r] in "\r\n")
    ensures forall k :: i <= k < r ==> text[k] !in "\r\n"
    decreases |text| - i
  {
    if i < |text| && text[i] !in "\r\n" then LineEnd(text, i + 1) else i
  }

  function LineSpans(text: string, start: nat): seq<Span>
    requires start <= |text|
    decreases |text| - start
  {
    if start == |text| then []
    else if text[start] in "\r\n" then LineSpans(text, start + 1)
    else [Span(start, LineEnd(text, start))] + LineSpans(text, LineEnd(text, start))
  }

  /** Education spans are whole lines: ordered, disjoint, and every character that is not a
      line break is in one. */
  lemma {:induction false} LinesOrdered(text: string, start: nat)
    requires start <= |text|
    ensures var s := LineSpans(text, start);
      && (forall i :: 0 <= i < |s| ==> start <= s[i].lo < s[i].hi <= |text|)
      && Ordered(s)
      && (forall k :: start <= k < |text| && text[k] !in "\r\n" ==> Covered(s, k))
    decreases |text| - start
  {
    if start < |text| {
      var next := if text[start] in "\r\n" then start + 1 else LineEnd(text, start);
      LinesOrdered(text, next);
      var s, rest := LineSpans(text, start), LineSpans(text, next);
      forall k: nat | start <= k < |text| && text[k] !in "\r\n"
        ensures Covered(s, k)
      {
        if k < next {
          assert s[0].lo <= k < s[0].hi;
        } else {
          assert Covered(rest, k);
          CoveredAfter(s[..|s| - |rest|], rest, k);
        }
      }
    }
  }

  // ----- answer preparation: `_bounded_passages`

  /** A sentence stop that the window or a following space confirms, or a bullet. */
  predicate IsPassageStop(text: string, i: nat, hi: nat)
    requires i < hi <= |text|
  {
    || (text[i] in ".!?;" && (i + 1 == hi || IsSpace(text[i + 1])))
    || text[i] == '\U{2022}' || text[i] == '\U{25CF}'
  }

  /** The end of the last passage stop in `text[lo..hi]`. */
  function LastStop(text: string, lo: nat, i: nat, hi: nat): (r: Option<nat>)
    requires lo <= i <= hi <= |text|
    ensures r.Some? ==> lo < r.value <= i && IsPassageStop(text, r.value - 1, hi)
    ensures forall k :: (if r.Some? then r.value else lo) <= k < i ==> !IsPassageStop(text, k, hi)
    decreases i
  {
    if i == lo then None
    else if IsPassageStop(text, i - 1, hi) then Some(i)
    else LastStop(text, lo, i - 1, hi)
  }

  function PassageEnd(text: string, start: nat, limit: nat): (r: nat)
    requires start < |text| && limit > 0
    ensures start < r <= |text| && r - start <= limit
  {
    var end := if start + limit < |text| then start + limit else |text|;
    if end == |text| then end
    else
      var stop := LastStop(text, start, end, end);
      if stop.Some? && stop.value - start >= 80 then stop.value
      else match LastOf(text, " \n", start + 80, end)
           case Some(space) => space
           case None => end
  }

  /** Where a passage is cut: at the end of the text, or after the window's last sentence stop
      or bullet when that is at least eighty characters in, or before its last space, or (with
      neither) at the limit. */
  lemma PassageEndsAtStop(text: string, start: nat, limit: nat)
    requires limit > 0 && start + limit < |text|
    ensures var end, window := PassageEnd(text, start, limit), start + limit;
      || (end - start >= 80 && IsPassageStop(text, end - 1, window) &&
          forall k :: end <= k < window ==> !IsPassageStop(text, k, window))
      || ((forall k :: start + 80 <= k + 1 && start <= k < window ==> !IsPassageStop(text, k, window)) &&
          (end == window || (end - start >= 80 && text[end] in " \n")) &&
          (end == window ==> forall k :: start + 80 <= k < window ==> text[k] !in " \n"))
  {
  }

  function PassageSpans(text: string, start: nat, limit: nat): seq<Span>
    requires start <= |text| && limit > 0
    decreases |text| - start
  {
    if start == |text| then []
    else
      var end := PassageEnd(text, start, limit);
      Trimmed(text, start, end) + PassageSpans(text, SkipSpace(text, end, |text|), limit)
  }

  lemma {:induction false} PassagesChunked(text: string, start: nat, limit: nat)
    requires start <= |text| && limit > 0
    ensures Chunked(text, start, PassageSpans(text, start, limit), limit)
    decreases |text| - start
  {
    if start < |text| {
      var end := PassageEnd(text, start, limit);
      var next := SkipSpace(text, end, |text|);
      PassagesChunked(text, next, limit);
      ConsChunked(text, start, end, next, PassageSpans(text, next, limit), limit);
    }
  }

  /** The quotes a list of spans names. */
  function Quotes(text: string, spans: seq<Span>): (r: seq<string>)
    requires InText(text, spans)
    ensures |r| == |spans| && forall i :: 0 <= i < |spans| ==> r[i] == text[spans[i].lo..spans[i].hi]
  {
    seq(|spans|, i requires 0 <= i < |spans| => text[spans[i].lo..spans[i].hi])
  }

  /** Stripping a piece is taking the slice that its trimmed span names. */
  lemma StripIsTrimmed(text: string, start: nat, end: nat)
    requires start <= end <= |text|
    ensures var t := Trimmed(text, start, end);
      Strip(text[start..end]) == if t == [] then "" else text[t[0].lo..t[0].hi]
  {
    hide IsSpace, Strip;
    var a, b := StripIsSlice(text[start..end]);
    TrimmedIsSlice(text, start, end, text[start..end], a, b);
    SliceOfSlice(text, start, end, a, b);
  }

  lemma TrimmedIsSlice(text: string, start: nat, end: nat, piece: string, a: nat, b: nat)
    requires start <= end <= |text| && piece == text[start..end]
    requires a <= b <= |piece| && AllSpace(piece[..a]) && AllSpace(piece[b..])
    requires a < b ==> !IsSpace(piece[a]) && !IsSpace(piece[b - 1])
    ensures var t := Trimmed(text, start, end);
      if a == b then t == [] else t == [Span(start + a, start + b)]
  {
    var t := Trimmed(text, start, end);
    if t != [] {
      InsideTrim(piece, a, b, t[0].lo - start);
      InsideTrim(piece, a, b, t[0].hi - 1 - start);
    }
    if a < b {
      assert !IsSpace(text[start + a]) && !IsSpace(text[start + b - 1]);
    }
  }

  lemma InsideTrim(piece: string, a: nat, b: nat, k: nat)
    requires a <= b <= |piece| && AllSpace(piece[..a]) && AllSpace(piece[b..])
    requires k < |piece| && !IsSpace(piece[k])
    ensures a <= k < b
  {
    assert piece == piece[..a] + piece[a..b] + piece[b..];
  }

  predicate InText(text: string, spans: seq<Span>) {
    forall i :: 0 <= i < |spans| ==> spans[i].lo <= spans[i].hi <= |text|
  }

  lemma QuotesAppend(text: string, spans: seq<Span>, more: seq<Span>)
    requires InText(text, spans) && InText(text, more)
    ensures InText(text, spans + more) && Quotes(text, spans + more) == Quotes(text, spans) + Quotes(text, more)
  {
  }

  /** One turn of the passage loop: the stripped quote (if any) and where the next one starts. */
  method NextPassage(text: string, start: nat, limit: nat)
    returns (quotes: seq<string>, ghost piece: seq<Span>, next: nat)
    requires limit > 0 && start < |text|
    ensures start < next <= |text| && InText(text, piece) && quotes == Quotes(text, piece)
    ensures PassageSpans(text, start, limit) == piece + PassageSpans(text, next, limit)
  {
    var end := PassageEnd(text, start, limit);
    var quote := Strip(text[start..end]);
    StripIsTrimmed(text, start, end);
    piece := Trimmed(text, start, end);
    quotes := if quote != "" then [quote] else [];
    next := SkipWhitespace(text, end);
  }

  /** The passages of a text, in order. */
  function Passages(text: string, limit: nat): (quotes: seq<string>)
    requires limit > 0
    ensures InText(text, PassageSpans(text, 0, limit)) && |quotes| == |PassageSpans(text, 0, limit)|
  {
    PassagesChunked(text, 0, limit);
    Quotes(text, PassageSpans(text, 0, limit))
  }

  /** `_bounded_passages`, as the generator runs. */
  method BoundedPassages(text: string, limit: nat) returns (quotes: seq<string>)
    requires limit > 0
    ensures quotes == Passages(text, limit)
  {
    hide PassageSpans, Quotes;
    quotes := [];
    ghost var spans: seq<Span> := [];
    var start := 0;
    NoQuotes(text);
    NoPassages(text, limit);
    while start < |text|
      invariant start <= |text|
      invariant spans + PassageSpans(text, start, limit) == PassageSpans(text, 0, limit)
      invariant InText(text, spans) && quotes == Quotes(text, spans)
    {
      var more, piece, next := NextPassage(text, start, limit);
      Regroup(spans, PassageSpans(text, start, limit), piece, PassageSpans(text, next, limit));
      QuotesAppend(text, spans, piece);
      quotes, spans, start := quotes + more, spans + piece, next;
    }
    assert spans + [] == spans;
  }

  lemma NoQuotes(text: string)
    ensures Quotes(text, []) == []
  {
  }

  lemma NoPassages(text: string, limit: nat)
    requires limit > 0
    ensures PassageSpans(text, |text|, limit) == []
  {
  }

  method SkipWhitespace(text: string, end: nat) returns (start: nat)
    requires end <= |text|
    ensures start == SkipSpace(text, end, |text|)
  {
    start := end;
    while start < |text| && IsSpace(text[start])
      invariant end <= start <= |text| && SkipSpace(text, start, |text|) == SkipSpace(text, end, |text|)
    {
      start := start + 1;
    }
  }
}
