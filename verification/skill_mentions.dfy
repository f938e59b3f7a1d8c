/** Named skills in a text, and the affirmed skills of a profile with vetoes across entries. */
module SkillMentions {
  import opened Wrappers

  const MAX_TEXT_LENGTH: nat := 40000
  const MAX_PROFILE_ENTRIES: nat := 100
  const MAX_PROFILE_ENTRY_LENGTH: nat := 100

  datatype Status = Yes | No | Unclear

  /** One pattern match: its skill, what its own surroundings say, and whether only a list
      separator stands between it and the match before. */
  datatype Candidate = Candidate(skill: nat, specific: bool, status: Status, joined: bool)

  datatype Mention = Mention(skill: nat, specific: bool)

  /** The text patterns: matches, a list that fills the whole text, uncertain wording, and profile
      alternatives. */
  datatype Reader = Reader(
    candidates: string -> seq<Candidate>, bare: (string, nat, nat) -> bool,
    uncertain: string -> bool, alternative: string -> bool)

  // ----- skill lists

  function GroupLo(cs: seq<Candidate>, i: nat): (lo: nat)
    requires i < |cs|
    ensures lo <= i
  {
    if i == 0 || !cs[i].joined then i else GroupLo(cs, i - 1)
  }

  function GroupHi(cs: seq<Candidate>, i: nat): (hi: nat)
    requires i < |cs|
    ensures i <= hi < |cs|
    decreases |cs| - i
  {
    if i + 1 == |cs| || !cs[i + 1].joined then i else GroupHi(cs, i + 1)
  }

  predicate SomeYes(cs: seq<Candidate>, lo: nat, hi: nat)
    requires hi < |cs|
  {
    exists k :: lo <= k <= hi && cs[k].status == Yes
  }

  /** An unclear match is accepted exactly when its list is explicit: the whole text is that list,
      or some other match in it is accepted on its own. */
  function Resolved(reader: Reader, text: string, cs: seq<Candidate>, i: nat): Status
    requires i < |cs|
  {
    var lo, hi := GroupLo(cs, i), GroupHi(cs, i);
    if cs[i].status == Unclear && (reader.bare(text, lo, hi) || SomeYes(cs, lo, hi)) then Yes else cs[i].status
  }

  datatype Group = Group(lo: nat, hi: nat)

  predicate IsGroup(cs: seq<Candidate>, g: Group) {
    && g.lo <= g.hi < |cs| && (g.lo == 0 || !cs[g.lo].joined)
    && (forall k :: g.lo < k <= g.hi ==> cs[k].joined)
    && (g.hi + 1 == |cs| || !cs[g.hi + 1].joined)
  }

  lemma {:induction false} GroupStarts(cs: seq<Candidate>, g: Group, i: nat)
    requires IsGroup(cs, g) && g.lo <= i <= g.hi
    ensures GroupLo(cs, i) == g.lo
  {
    if i > g.lo {
      GroupStarts(cs, g, i - 1);
    }
  }

  lemma {:induction false} GroupEnds(cs: seq<Candidate>, g: Group, i: nat)
    requires IsGroup(cs, g) && g.lo <= i <= g.hi
    ensures GroupHi(cs, i) == g.hi
    decreases g.hi - i
  {
    if i < g.hi {
      GroupEnds(cs, g, i + 1);
    }
  }

  /** What a match is taken for, read off its list: it counts if its own surroundings say so, or if they
      leave it open and the list is the whole text or holds one that counts. */
  lemma ResolvedIff(reader: Reader, text: string, cs: seq<Candidate>, g: Group, i: nat)
    requires IsGroup(cs, g) && g.lo <= i <= g.hi
    ensures Resolved(reader, text, cs, i) == Yes <==>
      || cs[i].status == Yes
      || (cs[i].status == Unclear && (reader.bare(text, g.lo, g.hi) || exists c :: c in cs[g.lo..g.hi + 1] && c.status == Yes))
    ensures Resolved(reader, text, cs, i) != Yes ==> Resolved(reader, text, cs, i) == cs[i].status
  {
    GroupStarts(cs, g, i);
    GroupEnds(cs, g, i);
    var list := cs[g.lo..g.hi + 1];
    if c :| c in list && c.status == Yes {
      var k :| 0 <= k < |list| && list[k] == c;
      assert cs[g.lo + k].status == Yes;
    }
    if k :| g.lo <= k <= g.hi && cs[k].status == Yes {
      assert list[k - g.lo] == cs[k];
    }
  }

  /** Every match lies in a list. */
  lemma InGroup(cs: seq<Candidate>, i: nat) returns (g: Group)
    requires i < |cs|
    ensures IsGroup(cs, g) && g.lo <= i <= g.hi
  {
    g := Group(GroupLo(cs, i), GroupHi(cs, i));
    LoStarts(cs, i);
    HiEnds(cs, i);
  }

  lemma {:induction false} LoStarts(cs: seq<Candidate>, i: nat)
    requires i < |cs|
    ensures var lo := GroupLo(cs, i); (lo == 0 || !cs[lo].joined) && forall k :: lo < k <= i ==> cs[k].joined
  {
    if i > 0 && cs[i].joined {
      LoStarts(cs, i - 1);
    }
  }

  lemma {:induction false} HiEnds(cs: seq<Candidate>, i: nat)
    requires i < |cs|
    ensures var hi := GroupHi(cs, i); (hi + 1 == |cs| || !cs[hi + 1].joined) && forall k :: i < k <= hi ==> cs[k].joined
    decreases |cs| - i
  {
    if i + 1 < |cs| && cs[i + 1].joined {
      HiEnds(cs, i + 1);
    }
  }

  /** Groups found so far cover the first n matches, in order; only the last may still grow. */
  predicate Groups(cs: seq<Candidate>, groups: seq<Group>, n: nat) {
    && n <= |cs| && (groups == [] <==> n == 0)
    && (forall k :: 0 <= k < |groups| ==> OpenGroup(cs, groups[k]))
    && (groups != [] ==> groups[0].lo == 0 && groups[|groups| - 1].hi + 1 == n)
    && (forall k :: 0 < k < |groups| ==> groups[k].lo == groups[k - 1].hi + 1 && !cs[groups[k].lo].joined)
  }

  predicate OpenGroup(cs: seq<Candidate>, g: Group) {
    g.lo <= g.hi < |cs| && forall k :: g.lo < k <= g.hi ==> cs[k].joined
  }

  method FindGroups(cs: seq<Candidate>) returns (groups: seq<Group>)
    ensures Groups(cs, groups, |cs|)
  {
    groups := [];
    for i := 0 to |cs|
      invariant Groups(cs, groups, i)
    {
      if i > 0 && cs[i].joined {
        JoinLast(cs, groups, i);
        var last := groups[|groups| - 1];
        groups := groups[|groups| - 1 := last.(hi := i)];
      } else {
        OpenNext(cs, groups, i);
        groups := groups + [Group(i, i)];
      }
    }
  }

  lemma JoinLast(cs: seq<Candidate>, groups: seq<Group>, i: nat)
    requires 0 < i < |cs| && Groups(cs, groups, i) && cs[i].joined
    ensures groups != []
    ensures Groups(cs, groups[|groups| - 1 := groups[|groups| - 1].(hi := i)], i + 1)
  {
    var at := |groups| - 1;
    assert OpenGroup(cs, groups[at]);
    assert OpenGroup(cs, groups[at].(hi := i));
    hide OpenGroup;
  }

  lemma OpenNext(cs: seq<Candidate>, groups: seq<Group>, i: nat)
    requires i < |cs| && Groups(cs, groups, i) && (i > 0 ==> !cs[i].joined)
    ensures Groups(cs, groups + [Group(i, i)], i + 1)
  {
    assert OpenGroup(cs, Group(i, i));
    hide OpenGroup;
  }

  lemma GroupsAreWhole(cs: seq<Candidate>, groups: seq<Group>, k: nat)
    requires Groups(cs, groups, |cs|) && k < |groups|
    ensures IsGroup(cs, groups[k])
  {
    assert OpenGroup(cs, groups[k]);
    if k + 1 < |groups| {
      assert groups[k + 1].lo == groups[k].hi + 1;
    }
  }

  /** `_resolve_list_context`: the list of verdicts is updated group by group. */
  method ResolveListContext(reader: Reader, text: string, cs: seq<Candidate>) returns (accepted: array<Status>)
    ensures accepted.Length == |cs| && forall i :: 0 <= i < |cs| ==> accepted[i] == Resolved(reader, text, cs, i)
  {
    accepted := new Status[|cs|](i requires 0 <= i < |cs| => cs[i].status);
    var groups := FindGroups(cs);
    hide Resolved;
    for g := 0 to |groups|
      invariant forall i :: 0 <= i < |cs| && (g > 0 ==> i > groups[g - 1].hi) ==> accepted[i] == cs[i].status
      invariant g > 0 ==> forall i :: 0 <= i <= groups[g - 1].hi ==> accepted[i] == Resolved(reader, text, cs, i)
    {
      GroupsAreWhole(cs, groups, g);
      ResolveGroup(reader, text, cs, groups[g], accepted);
    }
    if |cs| > 0 {
      assert groups[|groups| - 1].hi + 1 == |cs|;
    }
  }

  method ResolveGroup(reader: Reader, text: string, cs: seq<Candidate>, g: Group, accepted: array<Status>)
    requires IsGroup(cs, g) && accepted.Length == |cs|
    requires forall i :: g.lo <= i <= g.hi ==> accepted[i] == cs[i].status
    modifies accepted
    ensures forall i :: 0 <= i < |cs| ==>
      accepted[i] == if g.lo <= i <= g.hi then Resolved(reader, text, cs, i) else old(accepted[i])
  {
    forall i | g.lo <= i <= g.hi
      ensures GroupLo(cs, i) == g.lo && GroupHi(cs, i) == g.hi
    {
      GroupStarts(cs, g, i);
      GroupEnds(cs, g, i);
    }
    var explicit := reader.bare(text, g.lo, g.hi);
    for i := g.lo to g.hi + 1
      invariant explicit <==> reader.bare(text, g.lo, g.hi) || exists k :: g.lo <= k < i && cs[k].status == Yes
    {
      explicit := explicit || accepted[i] == Yes;
    }
    if explicit {
      for i := g.lo to g.hi + 1
        invariant forall k :: 0 <= k < |cs| ==>
          accepted[k] == if g.lo <= k < i then Resolved(reader, text, cs, k) else old(accepted[k])
      {
        if accepted[i] == Unclear {
          accepted[i] := Yes;
        }
      }
    }
  }

  // ----- mentions

  predicate AcceptedIn(reader: Reader, text: string, cs: seq<Candidate>, n: nat, skill: nat)
    requires n <= |cs|
  {
    exists i :: 0 <= i < n && cs[i].skill == skill && Resolved(reader, text, cs, i) == Yes
  }

  /** Some accepted match in the text is of this skill. */
  predicate Names(reader: Reader, text: string, skill: nat) {
    0 < |text| <= MAX_TEXT_LENGTH && AcceptedIn(reader, text, reader.candidates(text), |reader.candidates(text)|, skill)
  }

  predicate HasSkill(ms: seq<Mention>, skill: nat) {
    exists k :: 0 <= k < |ms| && ms[k].skill == skill
  }

  function Collected(reader: Reader, text: string, cs: seq<Candidate>, n: nat): seq<Mention>
    requires n <= |cs|
  {
    if n == 0 then []
    else
      var init := Collected(reader, text, cs, n - 1);
      if Resolved(reader, text, cs, n - 1) == Yes && !HasSkill(init, cs[n - 1].skill)
      then init + [Mention(cs[n - 1].skill, cs[n - 1].specific)] else init
  }

  function Mentions(reader: Reader, text: string): seq<Mention> {
    if text == "" || |text| > MAX_TEXT_LENGTH then []
    else Collected(reader, text, reader.candidates(text), |reader.candidates(text)|)
  }

  lemma {:induction false} CollectedHas(reader: Reader, text: string, cs: seq<Candidate>, n: nat, skill: nat)
    requires n <= |cs|
    ensures HasSkill(Collected(reader, text, cs, n), skill) <==> AcceptedIn(reader, text, cs, n, skill)
  {
    hide Resolved;
    if n > 0 {
      CollectedHas(reader, text, cs, n - 1, skill);
      var init, ms := Collected(reader, text, cs, n - 1), Collected(reader, text, cs, n);
      assert forall k :: 0 <= k < |init| ==> ms[k] == init[k];
      if |ms| > |init| {
        assert ms[|init|].skill == cs[n - 1].skill;
      }
      if HasSkill(init, skill) {
        var k :| 0 <= k < |init| && init[k].skill == skill;
        assert ms[k].skill == skill;
      }
    }
  }

  /** `mentions` lists exactly the skills named. */
  lemma MentionsName(reader: Reader, text: string, skill: nat)
    ensures HasSkill(Mentions(reader, text), skill) <==> Names(reader, text, skill)
  {
    if 0 < |text| <= MAX_TEXT_LENGTH {
      CollectedHas(reader, text, reader.candidates(text), |reader.candidates(text)|, skill);
    }
  }

  /** Match i counts, and is the first of its skill that does. */
  predicate FirstAccepted(reader: Reader, text: string, cs: seq<Candidate>, i: int) {
    0 <= i < |cs| && Resolved(reader, text, cs, i) == Yes && forall j :: 0 <= j < i && cs[j].skill == cs[i].skill ==> Resolved(reader, text, cs, j) != Yes
  }

  function FirstPlaces(reader: Reader, text: string, cs: seq<Candidate>, n: nat): (places: seq<nat>)
    requires n <= |cs|
    ensures forall i :: 0 <= i < |places| ==> places[i] < n && FirstAccepted(reader, text, cs, places[i])
    ensures forall p :: 0 <= p < n && FirstAccepted(reader, text, cs, p) ==> p in places
    ensures forall i, j :: 0 <= i < j < |places| ==> places[i] < places[j]
  {
    if n == 0 then []
    else
      var before := FirstPlaces(reader, text, cs, n - 1);
      if FirstAccepted(reader, text, cs, n - 1) then before + [n - 1] else before
  }

  lemma CollectedStep(reader: Reader, text: string, cs: seq<Candidate>, n: nat)
    requires 0 < n <= |cs|
    ensures Collected(reader, text, cs, n) == Collected(reader, text, cs, n - 1)
      + if FirstAccepted(reader, text, cs, n - 1) then [Mention(cs[n - 1].skill, cs[n - 1].specific)] else []
  {
    CollectedHas(reader, text, cs, n - 1, cs[n - 1].skill);
    hide Resolved, HasSkill;
  }

  /** Where the mentions come from: they are the first matches of their skills that count, all of them,
      in the order of the text. */
  lemma {:induction false} CollectedFrom(reader: Reader, text: string, cs: seq<Candidate>, n: nat)
    requires n <= |cs|
    ensures var ms, places := Collected(reader, text, cs, n), FirstPlaces(reader, text, cs, n);
      |places| == |ms| && forall i :: 0 <= i < |ms| ==> ms[i] == Mention(cs[places[i]].skill, cs[places[i]].specific)
  {
    hide FirstAccepted, Resolved, Collected;
    if n > 0 {
      CollectedStep(reader, text, cs, n);
      CollectedFrom(reader, text, cs, n - 1);
    } else {
      CollectedNothing(reader, text, cs);
    }
  }

  lemma CollectedNothing(reader: Reader, text: string, cs: seq<Candidate>)
    ensures Collected(reader, text, cs, 0) == []
  {
  }

  lemma {:induction false} CollectedOnce(reader: Reader, text: string, cs: seq<Candidate>, n: nat, i: nat, j: nat)
    requires n <= |cs| && i < j < |Collected(reader, text, cs, n)|
    ensures Collected(reader, text, cs, n)[i].skill != Collected(reader, text, cs, n)[j].skill
  {
    var init := Collected(reader, text, cs, n - 1);
    if j < |init| {
      CollectedOnce(reader, text, cs, n - 1, i, j);
    } else {
      assert HasSkill(init, init[i].skill);
    }
  }

  lemma HasSkillAppend(ms: seq<Mention>, m: Mention, skill: nat)
    ensures HasSkill(ms + [m], skill) <==> HasSkill(ms, skill) || m.skill == skill
  {
    assert (ms + [m])[|ms|] == m;
    assert forall k :: 0 <= k < |ms| ==> (ms + [m])[k] == ms[k];
    if HasSkill(ms, skill) {
      var k :| 0 <= k < |ms| && ms[k].skill == skill;
      assert (ms + [m])[k].skill == skill;
    }
  }

  method FindMentions(reader: Reader, text: string) returns (ms: seq<Mention>)
    ensures ms == Mentions(reader, text)
  {
    ms := [];
    if text == "" || |text| > MAX_TEXT_LENGTH {
      return;
    }
    var cs := reader.candidates(text);
    var accepted := ResolveListContext(reader, text, cs);
    hide Resolved;
    var seen: set<nat> := {};
    for i := 0 to |cs|
      invariant ms == Collected(reader, text, cs, i)
      invariant forall s :: s in seen <==> HasSkill(ms, s)
    {
      if accepted[i] == Yes {
        if cs[i].skill !in seen {
          forall s
            ensures HasSkill(ms + [Mention(cs[i].skill, cs[i].specific)], s) <==> HasSkill(ms, s) || cs[i].skill == s
          {
            HasSkillAppend(ms, Mention(cs[i].skill, cs[i].specific), s);
          }
          ms := ms + [Mention(cs[i].skill, cs[i].specific)];
        }
        seen := seen + {cs[i].skill};
      }
    }
  }
}
