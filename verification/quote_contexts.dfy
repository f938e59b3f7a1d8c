/** The sentence contexts of a quote in a job description. */
module QuoteContexts {
  import opened Wrappers
  import opened Text

  const MAX_CONTEXTS: nat := 16

  /** `clipped` tests whether an occurrence is cut out of a longer word; `lines` splits the
      description. */
  datatype Scanner = Scanner(clipped: (string, nat, nat) -> bool, lines: string -> seq<string>, normalized: string -> string)

  // ----- occurrences

  predicate Occurs(text: string, needle: string, i: nat) {
    i + |needle| <= |text| && text[i..i + |needle|] == needle
  }

  /** `text.find(needle, start)`. */
  function Find(text: string, needle: string, start: nat): (p: Option<nat>)
    requires start <= |text|
    ensures p.Some? ==> start <= p.value && Occurs(text, needle, p.value)
    ensures p.Some? ==> forall i :: start <= i < p.value ==> !Occurs(text, needle, i)
    ensures p.None? ==> forall i :: start <= i ==> !Occurs(text, needle, i)
    decreases |text| - start
  {
    if start + |needle| > |text| then None
    else if text[start..start + |needle|] == needle then Some(start)
    else if start == |text| then None
    else Find(text, needle, start + 1)
  }

  function Count(text: string, needle: string, start: nat): nat
    requires needle != "" && start <= |text|
    decreases |text| - start
  {
    var p := Find(text, needle, start);
    if p.None? then 0 else 1 + Count(text, needle, p.value + |needle|)
  }

  predicate AllOccur(text: string, needle: string, ps: seq<nat>) {
    forall k :: 0 <= k < |ps| ==> Occurs(text, needle, ps[k])
  }

  /** The occurrences the scan visits: the first, then the first after its end, and so on. */
  function Scanned(text: string, needle: string, start: nat): (ps: seq<nat>)
    requires needle != "" && start <= |text|
    ensures AllOccur(text, needle, ps)
    decreases |text| - start
  {
    var p := Find(text, needle, start);
    if p.None? then [] else [p.value] + Scanned(text, needle, p.value + |needle|)
  }

  // ----- sentences

  predicate Stop(c: char) {
    c in ".!?;"
  }

  /** A sentence break inside text[..n]: a stop before a space or before the end of that part. */
  predicate BreakBefore(text: string, n: nat, i: nat)
    requires i < n <= |text|
  {
    Stop(text[i]) && (i + 1 == n || IsSpace(text[i + 1]))
  }

  /** Where the last break before n ends, or 0. */
  function LeftOf(text: string, n: nat, i: nat): (l: nat)
    requires i <= n <= |text|
    ensures l <= n
  {
    if i == 0 then 0
    else if BreakBefore(text, n, i - 1) then (if i == n then n else i + 1)
    else LeftOf(text, n, i - 1)
  }

  /** Where the first break from n on ends, or the end of the text. */
  function RightOf(text: string, n: nat): (r: nat)
    requires n <= |text|
    ensures n <= r <= |text|
    decreases |text| - n
  {
    if n == |text| then n
    else if Stop(text[n]) && (n + 1 == |text| || IsSpace(text[n + 1])) then (if n + 1 == |text| then n + 1 else n + 2)
    else RightOf(text, n + 1)
  }

  /** A quote that is itself a whole sentence does not borrow from the next one. */
  function StopOf(text: string, needle: string, p: nat): (r: nat)
    requires needle != "" && Occurs(text, needle, p)
    ensures p + |needle| <= r <= |text|
  {
    var end := p + |needle|;
    if Stop(needle[|needle| - 1]) && (end == |text| || IsSpace(text[end])) then end else RightOf(text, end)
  }

  function ContextAt(text: string, needle: string, p: nat): string
    requires needle != "" && Occurs(text, needle, p)
  {
    text[LeftOf(text, p, p)..StopOf(text, needle, p)]
  }

  /** The contexts of the unclipped occurrences. */
  function ContextsOf(scanner: Scanner, text: string, needle: string, ps: seq<nat>): (r: seq<string>)
    requires needle != "" && AllOccur(text, needle, ps)
  {
    if ps == [] then []
    else
      var rest := ContextsOf(scanner, text, needle, ps[1..]);
      if scanner.clipped(text, ps[0], ps[0] + |needle|) then rest else [ContextAt(text, needle, ps[0])] + rest
  }

  predicate WholeLine(scanner: Scanner, description: string, needle: string) {
    var lines := scanner.lines(description);
    exists i :: 0 <= i < |lines| && scanner.normalized(lines[i]) == needle
  }

  function Contexts(scanner: Scanner, description: string, quote: string): seq<string> {
    var text, needle := scanner.normalized(description), scanner.normalized(quote);
    if needle == "" then []
    else if Count(text, needle, 0) == 1 && WholeLine(scanner, description, needle) then [needle]
    else
      var all := ContextsOf(scanner, text, needle, Scanned(text, needle, 0));
      if |all| > MAX_CONTEXTS then [] else all
  }

  /** What one occurrence adds. */
  function Added(scanner: Scanner, text: string, needle: string, p: nat): seq<string>
    requires needle != "" && Occurs(text, needle, p)
  {
    if scanner.clipped(text, p, p + |needle|) then [] else [ContextAt(text, needle, p)]
  }

  lemma OccurStart(text: string, needle: string, ps: seq<nat>, k: nat)
    requires AllOccur(text, needle, ps) && k < |ps|
    ensures AllOccur(text, needle, ps[..k]) && AllOccur(text, needle, ps[..k + 1]) && AllOccur(text, needle, ps[1..])
  {
    hide Occurs;
  }

  lemma AddedIs(scanner: Scanner, text: string, needle: string, p: nat)
    requires needle != "" && Occurs(text, needle, p)
    ensures Added(scanner, text, needle, p) == if scanner.clipped(text, p, p + |needle|) then [] else [ContextAt(text, needle, p)]
  {
    hide ContextAt;
  }

  lemma {:induction false} ContextsOfAt(scanner: Scanner, text: string, needle: string, ps: seq<nat>, k: nat)
    requires needle != "" && AllOccur(text, needle, ps) && k < |ps|
    ensures AllOccur(text, needle, ps[..k]) && AllOccur(text, needle, ps[..k + 1])
    ensures ContextsOf(scanner, text, needle, ps[..k + 1])
      == ContextsOf(scanner, text, needle, ps[..k]) + Added(scanner, text, needle, ps[k])
  {
    hide ContextAt, Occurs, Added;
    OccurStart(text, needle, ps, k);
    AddedIs(scanner, text, needle, ps[k]);
    if k == 0 {
      assert ps[..1][1..] == [] && ps[..0] == [];
    } else {
      ContextsOfAt(scanner, text, needle, ps[1..], k - 1);
      assert ps[..k + 1][1..] == ps[1..][..k] && ps[..k][1..] == ps[1..][..k - 1];
    }
  }

  lemma {:induction false} ContextsOfGrow(scanner: Scanner, text: string, needle: string, ps: seq<nat>, k: nat)
    requires needle != "" && AllOccur(text, needle, ps) && k <= |ps|
    ensures AllOccur(text, needle, ps[..k])
    ensures |ContextsOf(scanner, text, needle, ps[..k])| <= |ContextsOf(scanner, text, needle, ps)|
    decreases |ps| - k
  {
    hide ContextsOf;
    if k < |ps| {
      ContextsOfAt(scanner, text, needle, ps, k);
      ContextsOfGrow(scanner, text, needle, ps, k + 1);
    } else {
      assert ps[..k] == ps;
    }
  }

  /** The scanning loop of `quote_contexts`. */
  method FindContexts(scanner: Scanner, text: string, needle: string) returns (contexts: seq<string>)
    requires needle != ""
    ensures var all := ContextsOf(scanner, text, needle, Scanned(text, needle, 0));
      contexts == if |all| > MAX_CONTEXTS then [] else all
  {
    hide ContextAt, Find, ContextsOf, AllOccur, Scanned;
    contexts := [];
    var start := 0;
    ghost var k := 0;
    ghost var ps := Scanned(text, needle, 0);
    NoContexts(scanner, text, needle);
    assert ps[..0] == [] && ps[0..] == ps;
    var p := Find(text, needle, start);
    while p.Some?
      invariant start <= |text| && p == Find(text, needle, start)
      invariant k <= |ps| && Scanned(text, needle, start) == ps[k..]
      invariant AllOccur(text, needle, ps[..k])
      invariant contexts == ContextsOf(scanner, text, needle, ps[..k]) && |contexts| <= MAX_CONTEXTS
      decreases |text| - start
    {
      var at := p.value;
      ScannedStep(text, needle, start);
      start := at + |needle|;
      FoundIsNext(text, needle, ps, k, at);
      ContextsOfAt(scanner, text, needle, ps, k);
      if !scanner.clipped(text, at, start) {
        if |contexts| == MAX_CONTEXTS {
          ContextsOfGrow(scanner, text, needle, ps, k + 1);
          return [];
        }
        contexts := contexts + [ContextAt(text, needle, at)];
      }
      k := k + 1;
      p := Find(text, needle, start);
    }
    ScannedStep(text, needle, start);
    assert ps[..k] == ps;
  }

  lemma ScannedStep(text: string, needle: string, start: nat)
    requires needle != "" && start <= |text|
    ensures var p := Find(text, needle, start);
      Scanned(text, needle, start) == if p.None? then [] else [p.value] + Scanned(text, needle, p.value + |needle|)
  {
    hide Find;
  }

  lemma NoContexts(scanner: Scanner, text: string, needle: string)
    requires needle != ""
    ensures AllOccur(text, needle, []) && ContextsOf(scanner, text, needle, []) == []
  {
  }

  lemma FoundIsNext(text: string, needle: string, ps: seq<nat>, k: nat, at: nat)
    requires needle != "" && k <= |ps| && at + |needle| <= |text|
    requires ps[k..] == [at] + Scanned(text, needle, at + |needle|)
    ensures k < |ps| && ps[k] == at && ps[k + 1..] == Scanned(text, needle, at + |needle|)
  {
    assert ps[k..][0] == at;
    assert ps[k + 1..] == ps[k..][1..];
  }

  method SurroundingContexts(scanner: Scanner, description: string, quote: string) returns (contexts: seq<string>)
    ensures contexts == Contexts(scanner, description, quote)
  {
    var text, needle := scanner.normalized(description), scanner.normalized(quote);
    if needle == "" {
      return [];
    }
    if Count(text, needle, 0) == 1 && WholeLine(scanner, description, needle) {
      return [needle];
    }
    contexts := FindContexts(scanner, text, needle);
  }

  // ----- what the contexts are

  lemma {:induction false} LeftIsLast(text: string, n: nat, i: nat, k: nat)
    requires i <= n <= |text| && LeftOf(text, n, i) <= k < i
    ensures !BreakBefore(text, n, k)
  {
    if k < i - 1 && !BreakBefore(text, n, i - 1) {
      LeftIsLast(text, n, i - 1, k);
    }
  }

  lemma {:induction false} RightIsFirst(text: string, n: nat, k: nat)
    requires n <= k && n <= |text| && k + 2 < RightOf(text, n)
    ensures !(Stop(text[k]) && IsSpace(text[k + 1]))
    decreases k - n
  {
    if n < k {
      RightIsFirst(text, n + 1, k);
    }
  }

  /** A sentence of text[..n] ends at k: there is a stop, and a space or the end of that part follows. */
  predicate Ends(text: string, n: nat, k: int) {
    && 0 <= k < n <= |text| && (text[k] == '.' || text[k] == '!' || text[k] == '?' || text[k] == ';')
    && (k + 1 == n || IsSpace(text[k + 1]))
  }

  /** Where a context may begin before p: at the start of the text, or right after a break. */
  ghost predicate StartsSentence(text: string, p: nat, l: nat)
    requires l <= p <= |text|
  {
    l == 0 || exists i :: Ends(text, p, i) && l == if i + 1 == p then p else i + 2
  }

  /** Where a context may end from n on: at the end of the text, or with a break. */
  ghost predicate EndsSentence(text: string, n: nat, r: nat)
    requires n <= r <= |text|
  {
    r == |text| || exists i :: n <= i && i + 1 < |text| && Ends(text, |text|, i) && r == i + 2
  }

  lemma {:induction false} LeftStarts(text: string, n: nat, i: nat)
    requires i <= n <= |text|
    ensures StartsSentence(text, n, LeftOf(text, n, i))
  {
    if i > 0 {
      if BreakBefore(text, n, i - 1) {
        assert Ends(text, n, i - 1);
      } else {
        LeftStarts(text, n, i - 1);
      }
    }
  }

  lemma {:induction false} RightEnds(text: string, n: nat)
    requires n <= |text|
    ensures EndsSentence(text, n, RightOf(text, n))
    decreases |text| - n
  {
    if n < |text| {
      if Ends(text, |text|, n) {
        assert n + 1 < |text| ==> RightOf(text, n) == n + 2;
      } else {
        RightEnds(text, n + 1);
      }
    }
  }

  lemma StopEnds(text: string, needle: string, p: nat)
    requires needle != "" && Occurs(text, needle, p)
    ensures var end := p + |needle|;
      if Ends(text, |text|, end - 1) then StopOf(text, needle, p) == end
      else StopOf(text, needle, p) == RightOf(text, end) && EndsSentence(text, end, StopOf(text, needle, p))
  {
    RightEnds(text, p + |needle|);
    assert text[p..p + |needle|][|needle| - 1] == text[p + |needle| - 1];
    hide RightOf, EndsSentence;
  }

  /** A context holds its quote. It reaches back to the last sentence break before the quote, or to
      the start of the text, and on to the first break after it, or to the end; a quote that is
      itself a complete sentence ends it. */
  lemma ContextIsSentence(text: string, needle: string, p: nat)
    requires needle != "" && Occurs(text, needle, p)
    ensures var l, r := LeftOf(text, p, p), StopOf(text, needle, p);
      && l <= p && p + |needle| <= r && ContextAt(text, needle, p) == text[l..r]
      && ContextAt(text, needle, p)[p - l..p - l + |needle|] == needle
      && (forall k :: l <= k < p ==> !Ends(text, p, k))
      && (forall k :: p + |needle| <= k && k + 2 < r ==> !Ends(text, |text|, k))
    ensures StartsSentence(text, p, LeftOf(text, p, p))
    ensures var end := p + |needle|;
      if Ends(text, |text|, end - 1) then StopOf(text, needle, p) == end
      else EndsSentence(text, end, StopOf(text, needle, p))
  {
    LeftStarts(text, p, p);
    StopEnds(text, needle, p);
    hide StartsSentence, EndsSentence;
    var l, r := LeftOf(text, p, p), StopOf(text, needle, p);
    SliceOfSlice(text, l, r, p - l, p - l + |needle|);
    forall k | l <= k < p
      ensures !Ends(text, p, k)
    {
      LeftIsLast(text, p, p, k);
    }
    forall k | p + |needle| <= k && k + 2 < r
      ensures !Ends(text, |text|, k)
    {
      RightIsFirst(text, p + |needle|, k);
    }
  }

  predicate Overlaps(scanned: nat, p: nat, needle: string) {
    scanned <= p < scanned + |needle|
  }

  /** The scan misses no occurrence: each one starts inside a scanned one. */
  lemma {:induction false} ScannedCovers(text: string, needle: string, start: nat, p: nat)
    requires needle != "" && start <= p && Occurs(text, needle, p)
    ensures exists k :: 0 <= k < |Scanned(text, needle, start)| && Overlaps(Scanned(text, needle, start)[k], p, needle)
    decreases |text| - start
  {
    hide Find;
    var first := Find(text, needle, start).value;
    var ps := Scanned(text, needle, start);
    assert ps == [first] + Scanned(text, needle, first + |needle|);
    hide Occurs, Scanned;
    assert p < first + |needle| ==> Overlaps(ps[0], p, needle);
    if p >= first + |needle| {
      ScannedCovers(text, needle, first + |needle|, p);
      var rest := Scanned(text, needle, first + |needle|);
      var k :| 0 <= k < |rest| && Overlaps(rest[k], p, needle);
      assert ps[k + 1] == rest[k];
    }
  }

  lemma {:induction false} ContextsHave(scanner: Scanner, text: string, needle: string, ps: seq<nat>, k: nat)
    requires needle != "" && AllOccur(text, needle, ps) && k < |ps|
    ensures Occurs(text, needle, ps[k])
    ensures !scanner.clipped(text, ps[k], ps[k] + |needle|) ==>
      ContextAt(text, needle, ps[k]) in ContextsOf(scanner, text, needle, ps)
  {
    hide ContextAt;
    if k > 0 {
      ContextsHave(scanner, text, needle, ps[1..], k - 1);
    }
  }

  /** Unless the quote is a unique whole line, a non-empty answer has the sentence of every scanned
      occurrence that is not part of a longer word. */
  lemma ContextsAreComplete(scanner: Scanner, description: string, quote: string, k: nat)
    requires Contexts(scanner, description, quote) != []
    requires var text, needle := scanner.normalized(description), scanner.normalized(quote);
      && needle != "" && k < |Scanned(text, needle, 0)|
      && !scanner.clipped(text, Scanned(text, needle, 0)[k], Scanned(text, needle, 0)[k] + |needle|)
      && !(Count(text, needle, 0) == 1 && WholeLine(scanner, description, needle))
    ensures var text, needle := scanner.normalized(description), scanner.normalized(quote);
      var p := Scanned(text, needle, 0)[k];
      Occurs(text, needle, p) && ContextAt(text, needle, p) in Contexts(scanner, description, quote)
  {
    hide ContextAt;
    var text, needle := scanner.normalized(description), scanner.normalized(quote);
    ContextsHave(scanner, text, needle, Scanned(text, needle, 0), k);
  }

  // ----- the whole answer

  /** From `start` on, the places are the leftmost occurrences that do not overlap. */
  ghost predicate Leftmost(text: string, needle: string, start: nat, places: seq<nat>) {
    forall k :: 0 <= k <= |places| ==> NextPlace(text, needle, From(needle, start, places, k), places, k)
  }

  /** The k-th place is the first occurrence from here on; after the last one there is none. */
  ghost predicate NextPlace(text: string, needle: string, here: nat, places: seq<nat>, k: nat)
    requires k <= |places|
  {
    && (k < |places| ==> here <= places[k] && Occurs(text, needle, places[k]))
    && forall p: nat :: here <= p && (k < |places| ==> p < places[k]) ==> !Occurs(text, needle, p)
  }

  /** Where the search for the k-th place begins. */
  function From(needle: string, start: nat, places: seq<nat>, k: nat): nat
    requires k <= |places|
  {
    if k == 0 then start else places[k - 1] + |needle|
  }

  lemma LeftmostCons(text: string, needle: string, start: nat, first: nat, rest: seq<nat>)
    requires start <= first && Occurs(text, needle, first) && forall p :: start <= p < first ==> !Occurs(text, needle, p)
    requires Leftmost(text, needle, first + |needle|, rest)
    ensures Leftmost(text, needle, start, [first] + rest)
  {
    var next, places := first + |needle|, [first] + rest;
    forall k | 0 <= k <= |places|
      ensures NextPlace(text, needle, From(needle, start, places, k), places, k)
    {
      hide Occurs;
      if k > 0 {
        assert NextPlace(text, needle, From(needle, next, rest, k - 1), rest, k - 1);
        assert From(needle, start, places, k) == From(needle, next, rest, k - 1);
        assert k < |places| ==> places[k] == rest[k - 1];
      }
    }
  }

  lemma LeftmostOccur(text: string, needle: string, start: nat, places: seq<nat>)
    requires Leftmost(text, needle, start, places)
    ensures AllOccur(text, needle, places)
    ensures forall k :: 0 <= k < |places| ==> From(needle, start, places, k) <= places[k]
  {
    hide Occurs;
    forall k | 0 <= k < |places|
      ensures Occurs(text, needle, places[k]) && From(needle, start, places, k) <= places[k]
    {
      assert NextPlace(text, needle, From(needle, start, places, k), places, k);
    }
  }

  lemma {:induction false} ScannedIsLeftmost(text: string, needle: string, start: nat)
    requires needle != "" && start <= |text|
    ensures Leftmost(text, needle, start, Scanned(text, needle, start))
    ensures Count(text, needle, start) == |Scanned(text, needle, start)|
    decreases |text| - start
  {
    var first := Find(text, needle, start);
    hide Find;
    if first.Some? {
      var next := first.value + |needle|;
      ScannedIsLeftmost(text, needle, next);
      hide Leftmost, Occurs;
      LeftmostCons(text, needle, start, first.value, Scanned(text, needle, next));
    } else {
      hide Occurs;
      assert NextPlace(text, needle, start, [], 0);
    }
  }

  /** The quote occurs at one place, apart from occurrences that overlap it from there. */
  ghost predicate Sole(text: string, needle: string) {
    exists p: nat :: SoleAt(text, needle, p)
  }

  ghost predicate SoleAt(text: string, needle: string, p: nat) {
    Occurs(text, needle, p) && forall q: nat :: Occurs(text, needle, q) ==> p <= q < p + |needle|
  }

  lemma SoleIff(text: string, needle: string)
    requires needle != ""
    ensures Count(text, needle, 0) == 1 <==> Sole(text, needle)
  {
    ScannedIsLeftmost(text, needle, 0);
    var places := Scanned(text, needle, 0);
    hide Scanned, Count, Occurs;
    assert NextPlace(text, needle, From(needle, 0, places, 0), places, 0);
    if |places| == 1 {
      assert NextPlace(text, needle, From(needle, 0, places, 1), places, 1);
      assert SoleAt(text, needle, places[0]);
    } else if |places| > 1 {
      assert NextPlace(text, needle, From(needle, 0, places, 1), places, 1);
      assert Occurs(text, needle, places[0]) && Occurs(text, needle, places[1]);
    }
  }

  function Unclipped(scanner: Scanner, text: string, needle: string, places: seq<nat>): (r: seq<nat>)
    ensures forall p :: p in r <==> p in places && !scanner.clipped(text, p, p + |needle|)
  {
    if places == [] then []
    else (if scanner.clipped(text, places[0], places[0] + |needle|) then [] else [places[0]]) + Unclipped(scanner, text, needle, places[1..])
  }

  lemma {:induction false} ContextsOfAre(scanner: Scanner, text: string, needle: string, places: seq<nat>, start: nat)
    requires needle != "" && AllOccur(text, needle, places)
    requires forall k :: 0 <= k < |places| ==> From(needle, start, places, k) <= places[k]
    ensures var r, kept := ContextsOf(scanner, text, needle, places), Unclipped(scanner, text, needle, places);
      && AllOccur(text, needle, kept) && |r| == |kept|
      && (forall i :: 0 <= i < |kept| ==> r[i] == ContextAt(text, needle, kept[i]) && start <= kept[i])
      && (forall i, j :: 0 <= i < j < |kept| ==> kept[i] < kept[j])
  {
    hide ContextAt, Occurs;
    if places != [] {
      var rest, next := places[1..], places[0] + |needle|;
      assert From(needle, start, places, 0) <= places[0];
      forall k | 0 <= k < |rest|
        ensures From(needle, next, rest, k) <= rest[k]
      {
        assert From(needle, start, places, k + 1) <= places[k + 1];
      }
      ContextsOfAre(scanner, text, needle, rest, next);
    }
  }

  /** The answer for a quote with these kept places: a quote that is a whole line and occurs nowhere
      else is its own context; otherwise the sentences of the places, in order, or nothing if there
      are more than sixteen. */
  ghost predicate Answers(scanner: Scanner, description: string, text: string, needle: string, kept: seq<nat>, r: seq<string>)
    requires needle != "" && AllOccur(text, needle, kept)
  {
    if Sole(text, needle) && exists line :: line in scanner.lines(description) && scanner.normalized(line) == needle then r == [needle]
    else if |kept| > 16 then r == []
    else |r| == |kept| && forall i :: 0 <= i < |r| ==> r[i] == ContextAt(text, needle, kept[i])
  }

  /** Exactly what is answered. The kept places are the leftmost occurrences that do not overlap and
      are not cut out of a word. */
  lemma ContextsAre(scanner: Scanner, description: string, quote: string) returns (places: seq<nat>, kept: seq<nat>)
    ensures scanner.normalized(quote) == "" ==> Contexts(scanner, description, quote) == []
    ensures var text, needle := scanner.normalized(description), scanner.normalized(quote);
      needle != "" ==>
        && Leftmost(text, needle, 0, places)
        && (forall p :: p in kept <==> p in places && !scanner.clipped(text, p, p + |needle|))
        && (forall i, j :: 0 <= i < j < |kept| ==> kept[i] < kept[j])
        && AllOccur(text, needle, kept) && Answers(scanner, description, text, needle, kept, Contexts(scanner, description, quote))
  {
    var text, needle := scanner.normalized(description), scanner.normalized(quote);
    places, kept := [], [];
    hide Contexts, Leftmost, Answers, AllOccur, Scanned, Unclipped;
    if needle != "" {
      ScannedIsLeftmost(text, needle, 0);
      places := Scanned(text, needle, 0);
      kept := Unclipped(scanner, text, needle, places);
      AnswersHold(scanner, description, quote);
    } else {
      NothingQuoted(scanner, description, quote);
    }
  }

  lemma NothingQuoted(scanner: Scanner, description: string, quote: string)
    requires scanner.normalized(quote) == ""
    ensures Contexts(scanner, description, quote) == []
  {
  }

  lemma AnswersHold(scanner: Scanner, description: string, quote: string)
    requires scanner.normalized(quote) != ""
    ensures var text, needle := scanner.normalized(description), scanner.normalized(quote);
      var kept := Unclipped(scanner, text, needle, Scanned(text, needle, 0));
      && (forall i, j :: 0 <= i < j < |kept| ==> kept[i] < kept[j])
      && AllOccur(text, needle, kept) && Answers(scanner, description, text, needle, kept, Contexts(scanner, description, quote))
  {
    var text, needle := scanner.normalized(description), scanner.normalized(quote);
    SoleIff(text, needle);
    ScannedIsLeftmost(text, needle, 0);
    LeftmostOccur(text, needle, 0, Scanned(text, needle, 0));
    ContextsOfAre(scanner, text, needle, Scanned(text, needle, 0), 0);
    LineIff(scanner, description, needle);
    hide ContextsOf, Scanned, Sole, Count, WholeLine, ContextAt, Occurs, Unclipped, AllOccur, Leftmost;
  }

  lemma LineIff(scanner: Scanner, description: string, needle: string)
    ensures WholeLine(scanner, description, needle) <==>
      exists line :: line in scanner.lines(description) && scanner.normalized(line) == needle
  {
  }
}
