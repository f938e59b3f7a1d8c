/** Job requirements compared with saved skills: supported, gap or unknown. */
module SkillMatching {
  import opened Wrappers
  import opened Sequences
  import opened Text
  import opened SkillMentions
  import opened QuoteContexts
  import opened PositiveProfiles

  datatype Outcome = Supported | Gap | Unknown

  /** The tables and patterns of skill comparison: an exact alias, a quote with conditions, a quote
      that names an alias, an entry of the form "no ...", and a bare single-skill sentence. */
  datatype Tables = Tables(
    reader: Reader, scanner: Scanner,
    aliasOf: string -> Option<nat>, conditional: string -> bool, namesAlias: (string, nat) -> bool,
    denies: string -> Option<nat>, atomic: (string, string) -> bool)

  // ----- overlaps

  datatype Overlap = Overlap(skill: nat, specific: bool, proof: string)

  predicate AllName(reader: Reader, texts: seq<string>, skill: nat) {
    forall i :: 0 <= i < |texts| ==> Names(reader, texts[i], skill)
  }

  predicate Uncertain(reader: Reader, text: string) {
    |text| > MAX_TEXT_LENGTH || reader.uncertain(text)
  }

  predicate Certain(reader: Reader, text: string, evidence: string, contexts: seq<string>) {
    !Uncertain(reader, text) && !Uncertain(reader, evidence)
    && forall i :: 0 <= i < |contexts| ==> !Uncertain(reader, contexts[i])
  }

  function Shared(reader: Reader, ms: seq<Mention>, evidence: string, contexts: seq<string>, profile: map<nat, string>): seq<Overlap> {
    if ms == [] then []
    else
      var rest := Shared(reader, ms[1..], evidence, contexts, profile);
      var m := ms[0];
      if Names(reader, evidence, m.skill) && m.skill in profile && AllName(reader, contexts, m.skill)
      then [Overlap(m.skill, m.specific, profile[m.skill])] + rest else rest
  }

  /** `skill_overlaps`. */
  function Overlaps(tables: Tables, title: string, evidence: string, description: string, profile: map<nat, string>): seq<Overlap> {
    var contexts := Contexts(tables.scanner, description, evidence);
    if contexts == [] || !Certain(tables.reader, title, evidence, contexts) then []
    else Shared(tables.reader, Mentions(tables.reader, title), evidence, contexts, profile)
  }

  /** What an overlap stands for: the label, the quote and every sentence around the quote name the
      skill, none of them is uncertain, and the profile affirms it without a veto. */
  ghost predicate Grounded(tables: Tables, title: string, evidence: string, description: string, skills: seq<string>, o: Overlap) {
    var contexts := Contexts(tables.scanner, description, evidence);
    && contexts != []
    && (forall t :: t in [title, evidence] + contexts ==> |t| <= MAX_TEXT_LENGTH && !tables.reader.uncertain(t) && Names(tables.reader, t, o.skill))
    && InLimits(skills) && SomeAffirms(tables.reader, skills, o.skill) && !SomeVetoes(tables.reader, skills, o.skill)
    && FirstAffirming(tables.reader, skills, o.skill, o.proof)
  }

  lemma {:induction false} SharedMeaning(reader: Reader, ms: seq<Mention>, evidence: string, contexts: seq<string>, profile: map<nat, string>, o: Overlap)
    ensures o in Shared(reader, ms, evidence, contexts, profile) <==>
      Mention(o.skill, o.specific) in ms && Names(reader, evidence, o.skill) && o.skill in profile
      && AllName(reader, contexts, o.skill) && profile[o.skill] == o.proof
  {
    hide Names;
    if ms != [] {
      SharedMeaning(reader, ms[1..], evidence, contexts, profile, o);
      assert ms == [ms[0]] + ms[1..];
    }
  }

  /** Whether texts are certain and name the skill, read off all of them together. */
  lemma CertainIff(reader: Reader, title: string, evidence: string, contexts: seq<string>, skill: nat)
    ensures Certain(reader, title, evidence, contexts) && Names(reader, title, skill) && Names(reader, evidence, skill) && AllName(reader, contexts, skill)
      <==> forall t :: t in [title, evidence] + contexts ==> |t| <= MAX_TEXT_LENGTH && !reader.uncertain(t) && Names(reader, t, skill)
  {
    hide Names;
    var all := [title, evidence] + contexts;
    assert all[0] == title && all[1] == evidence;
    forall i | 0 <= i < |contexts|
      ensures all[i + 2] == contexts[i] && contexts[i] in all
    {
    }
  }

  function MentionsOf(overlaps: seq<Overlap>): (r: seq<Mention>)
    ensures |r| == |overlaps| && forall i :: 0 <= i < |r| ==> r[i] == Mention(overlaps[i].skill, overlaps[i].specific)
  {
    seq(|overlaps|, i requires 0 <= i < |overlaps| => Mention(overlaps[i].skill, overlaps[i].specific))
  }

  /** Overlaps stand in the order of the label's mentions. */
  lemma {:induction false} SharedInOrder(reader: Reader, ms: seq<Mention>, evidence: string, contexts: seq<string>, profile: map<nat, string>)
    ensures PartOf(MentionsOf(Shared(reader, ms, evidence, contexts, profile)), ms)
  {
    hide Names, AllName;
    if ms != [] {
      var all, rest := Shared(reader, ms, evidence, contexts, profile), Shared(reader, ms[1..], evidence, contexts, profile);
      SharedInOrder(reader, ms[1..], evidence, contexts, profile);
      if all != rest {
        assert MentionsOf(all)[1..] == MentionsOf(rest);
      }
    }
  }

  /** The overlaps are exactly the grounded ones that the label mentions. */
  lemma OverlapsIff(tables: Tables, title: string, evidence: string, description: string, skills: seq<string>, o: Overlap)
    ensures o in Overlaps(tables, title, evidence, description, PositiveProfile(tables.reader, skills)) <==>
      Grounded(tables, title, evidence, description, skills, o) && Mention(o.skill, o.specific) in Mentions(tables.reader, title)
  {
    var reader := tables.reader;
    CertainIff(reader, title, evidence, Contexts(tables.scanner, description, evidence), o.skill);
    hide Names, AllName, Certain, Contexts, PositiveProfile, Mentions;
    var profile := PositiveProfile(reader, skills);
    SharedMeaning(reader, Mentions(reader, title), evidence, Contexts(tables.scanner, description, evidence), profile, o);
    var ms := Mentions(reader, title);
    if Mention(o.skill, o.specific) in ms {
      var k :| 0 <= k < |ms| && ms[k] == Mention(o.skill, o.specific);
      assert HasSkill(ms, o.skill);
    }
    MentionsName(reader, title, o.skill);
    ProfileMeaning(reader, skills, o.skill);
    if o.skill in profile && FirstAffirming(reader, skills, o.skill, o.proof) {
      OneFirst(reader, skills, o.skill, profile[o.skill], o.proof);
    }
  }

  lemma OneFirst(reader: Reader, entries: seq<string>, skill: nat, a: string, b: string)
    requires FirstAffirming(reader, entries, skill, a) && FirstAffirming(reader, entries, skill, b)
    ensures a == b
  {
    hide Affirms;
    var i :| 0 <= i < |entries| && AffirmsFirst(reader, entries, skill, i) && entries[i] == a;
    var j :| 0 <= j < |entries| && AffirmsFirst(reader, entries, skill, j) && entries[j] == b;
  }

  /** Something to build on: a skill that the label mentions and that is grounded. */
  ghost predicate SomeGround(tables: Tables, title: string, evidence: string, description: string, skills: seq<string>, specificOnly: bool) {
    exists o :: Grounded(tables, title, evidence, description, skills, o) && Mention(o.skill, o.specific) in Mentions(tables.reader, title)
                && (specificOnly ==> o.specific)
  }

  // ----- an exact comparison with saved entries

  function Entries(tables: Tables, skills: seq<string>, key: nat, denied: bool): seq<string> {
    if skills == [] then []
    else
      var init := Entries(tables, skills[..|skills| - 1], key, denied);
      var last := skills[|skills| - 1];
      if (if denied then tables.denies(last) else tables.aliasOf(last)) == Some(key) then init + [last] else init
  }

  datatype Verdict = Verdict(outcome: Outcome, proof: Option<string>)

  const Undecided: Verdict := Verdict(Unknown, None)

  /** `compare_skill`. */
  function CompareSkill(tables: Tables, title: string, evidence: string, skills: seq<string>): Verdict {
    var key := tables.aliasOf(title);
    if key.None? || tables.conditional(evidence) || !tables.namesAlias(evidence, key.value) then Undecided
    else
      var positive, negative := Entries(tables, skills, key.value, false), Entries(tables, skills, key.value, true);
      if positive != [] && negative != [] then Undecided
      else if positive != [] then Verdict(Supported, Some(positive[0]))
      else if negative != [] then Verdict(Gap, Some(negative[0]))
      else Undecided
  }

  /** The loop of `compare_skill` over the saved entries. */
  method CompareEntries(tables: Tables, title: string, evidence: string, skills: seq<string>) returns (v: Verdict)
    ensures v == CompareSkill(tables, title, evidence, skills)
  {
    var key := tables.aliasOf(title);
    if key.None? || tables.conditional(evidence) || !tables.namesAlias(evidence, key.value) {
      return Undecided;
    }
    var positive, negative := [], [];
    for i := 0 to |skills|
      invariant positive == Entries(tables, skills[..i], key.value, false)
      invariant negative == Entries(tables, skills[..i], key.value, true)
    {
      assert skills[..i + 1][..i] == skills[..i];
      if tables.aliasOf(skills[i]) == key {
        positive := positive + [skills[i]];
      }
      if tables.denies(skills[i]) == key {
        negative := negative + [skills[i]];
      }
    }
    assert skills[..|skills|] == skills;
    if positive != [] && negative != [] {
      return Undecided;
    }
    if positive != [] {
      return Verdict(Supported, Some(positive[0]));
    }
    return if negative != [] then Verdict(Gap, Some(negative[0])) else Undecided;
  }

  /** Some saved entry is exactly this skill. */
  predicate Claims(tables: Tables, skills: seq<string>, key: nat) {
    exists i :: 0 <= i < |skills| && tables.aliasOf(skills[i]) == Some(key)
  }

  /** Some saved entry exactly denies it. */
  predicate Denies(tables: Tables, skills: seq<string>, key: nat) {
    exists i :: 0 <= i < |skills| && tables.denies(skills[i]) == Some(key)
  }

  /** The label is a known skill, and the quote names it without conditions. */
  predicate Comparing(tables: Tables, title: string, evidence: string, key: nat) {
    tables.aliasOf(title) == Some(key) && !tables.conditional(evidence) && tables.namesAlias(evidence, key)
  }

  ghost predicate SaysYes(tables: Tables, title: string, evidence: string, skills: seq<string>) {
    exists key :: Comparing(tables, title, evidence, key) && Claims(tables, skills, key) && !Denies(tables, skills, key)
  }

  ghost predicate SaysNo(tables: Tables, title: string, evidence: string, skills: seq<string>) {
    exists key :: Comparing(tables, title, evidence, key) && Denies(tables, skills, key) && !Claims(tables, skills, key)
  }

  /** A verdict is supported exactly when some saved entry is the skill and none denies it, a gap
      exactly the other way round, and it cites the first such entry. */
  lemma VerdictMeaning(tables: Tables, title: string, evidence: string, skills: seq<string>)
    ensures var v := CompareSkill(tables, title, evidence, skills); var key := tables.aliasOf(title);
      && (v.outcome == Supported <==> SaysYes(tables, title, evidence, skills))
      && (v.outcome == Gap <==> SaysNo(tables, title, evidence, skills))
      && (v.outcome == Unknown <==> v.proof.None?)
      && (v.outcome == Supported ==> key.Some? && exists i :: FirstClaim(tables, skills, key.value, i) && v.proof.value == skills[i])
      && (v.outcome == Gap ==> key.Some? && exists i :: FirstDenial(tables, skills, key.value, i) && v.proof.value == skills[i])
  {
    var key := tables.aliasOf(title);
    if key.Some? {
      EntriesIff(tables, skills, key.value);
      assert SaysYes(tables, title, evidence, skills) <==>
        Comparing(tables, title, evidence, key.value) && Claims(tables, skills, key.value) && !Denies(tables, skills, key.value);
      assert SaysNo(tables, title, evidence, skills) <==>
        Comparing(tables, title, evidence, key.value) && Denies(tables, skills, key.value) && !Claims(tables, skills, key.value);
      hide Entries, Claims, Denies;
    }
  }

  /** The first saved entry that is exactly this skill, or exactly denies it. */
  ghost predicate FirstClaim(tables: Tables, skills: seq<string>, key: nat, i: int) {
    && 0 <= i < |skills| && tables.aliasOf(skills[i]) == Some(key)
    && forall j :: 0 <= j < i ==> tables.aliasOf(skills[j]) != Some(key)
  }

  ghost predicate FirstDenial(tables: Tables, skills: seq<string>, key: nat, i: int) {
    && 0 <= i < |skills| && tables.denies(skills[i]) == Some(key)
    && forall j :: 0 <= j < i ==> tables.denies(skills[j]) != Some(key)
  }

  lemma {:induction false} EntriesIff(tables: Tables, skills: seq<string>, key: nat)
    ensures var positive, negative := Entries(tables, skills, key, false), Entries(tables, skills, key, true);
      && (positive != [] <==> Claims(tables, skills, key)) && (negative != [] <==> Denies(tables, skills, key))
      && (positive != [] ==> exists i :: FirstClaim(tables, skills, key, i) && positive[0] == skills[i])
      && (negative != [] ==> exists i :: FirstDenial(tables, skills, key, i) && negative[0] == skills[i])
  {
    if skills != [] {
      var last := |skills| - 1;
      var init := skills[..last];
      EntriesIff(tables, init, key);
      if i :| FirstClaim(tables, init, key, i) {
        assert FirstClaim(tables, skills, key, i);
      } else if tables.aliasOf(skills[last]) == Some(key) {
        NoneBefore(tables, skills, key);
        assert FirstClaim(tables, skills, key, last);
      }
      if i :| FirstDenial(tables, init, key, i) {
        assert FirstDenial(tables, skills, key, i);
      } else if tables.denies(skills[last]) == Some(key) {
        NoneBefore(tables, skills, key);
        assert FirstDenial(tables, skills, key, last);
      }
    }
  }

  lemma NoneBefore(tables: Tables, skills: seq<string>, key: nat)
    requires skills != []
    ensures !Claims(tables, skills[..|skills| - 1], key) ==> forall j :: 0 <= j < |skills| - 1 ==> tables.aliasOf(skills[j]) != Some(key)
    ensures !Denies(tables, skills[..|skills| - 1], key) ==> forall j :: 0 <= j < |skills| - 1 ==> tables.denies(skills[j]) != Some(key)
  {
    forall j | 0 <= j < |skills| - 1
      ensures skills[j] == skills[..|skills| - 1][j]
    {
    }
  }

  // ----- a legacy skill row

  datatype SkillRow = SkillRow(outcome: Outcome, proof: Option<string>, overlaps: seq<Overlap>)

  predicate Present(tables: Tables, evidence: string, description: string) {
    tables.scanner.normalized(evidence) != "" && In(tables.scanner.normalized(evidence), tables.scanner.normalized(description))
  }

  predicate AllAtomic(tables: Tables, title: string, contexts: seq<string>) {
    contexts != [] && forall i :: 0 <= i < |contexts| ==> tables.atomic(title, contexts[i])
  }

  predicate AffirmedAlone(tables: Tables, title: string, skills: seq<string>) {
    var ms := Mentions(tables.reader, title);
    exists k, i :: 0 <= k < |ms| && 0 <= i < |skills| && ms[k].skill in PositiveProfile(tables.reader, [skills[i]])
  }

  /** Some entry, taken by itself, affirms a skill that the label names. */
  predicate AnyAffirms(tables: Tables, title: string, skills: seq<string>) {
    var ms := Mentions(tables.reader, title);
    exists k, i :: 0 <= k < |ms| && 0 <= i < |skills| && Affirms(tables.reader, skills[i], ms[k].skill) && |skills[i]| <= 100
  }

  lemma AffirmedAloneIff(tables: Tables, title: string, skills: seq<string>)
    ensures AffirmedAlone(tables, title, skills) <==> AnyAffirms(tables, title, skills)
  {
    hide Mentions, PositiveProfile;
    var ms := Mentions(tables.reader, title);
    forall k, i | 0 <= k < |ms| && 0 <= i < |skills|
      ensures ms[k].skill in PositiveProfile(tables.reader, [skills[i]]) <==>
        Affirms(tables.reader, skills[i], ms[k].skill) && |skills[i]| <= 100
    {
      ProfileMeaning(tables.reader, [skills[i]], ms[k].skill);
      assert [skills[i]][0] == skills[i];
    }
    hide Affirms;
  }

  /** Every sentence around the quote is nothing but the one skill. */
  predicate OnlySkill(tables: Tables, title: string, description: string, evidence: string) {
    var contexts := Contexts(tables.scanner, description, evidence);
    contexts != [] && forall c :: c in contexts ==> tables.atomic(title, c)
  }

  lemma OnlySkillIff(tables: Tables, title: string, description: string, evidence: string)
    ensures AllAtomic(tables, title, Contexts(tables.scanner, description, evidence)) <==> OnlySkill(tables, title, description, evidence)
  {
    var contexts := Contexts(tables.scanner, description, evidence);
    hide Contexts;
    if OnlySkill(tables, title, description, evidence) {
      assert forall i :: 0 <= i < |contexts| ==> contexts[i] in contexts;
    }
  }

  lemma NoGround(tables: Tables, title: string, evidence: string, description: string, skills: seq<string>)
    ensures Overlaps(tables, title, evidence, description, PositiveProfile(tables.reader, skills)) != []
      <==> SomeGround(tables, title, evidence, description, skills, false)
    ensures Specific(Overlaps(tables, title, evidence, description, PositiveProfile(tables.reader, skills))) != []
      <==> SomeGround(tables, title, evidence, description, skills, true)
  {
    var all := Overlaps(tables, title, evidence, description, PositiveProfile(tables.reader, skills));
    forall o
      ensures o in all <==> Grounded(tables, title, evidence, description, skills, o) && Mention(o.skill, o.specific) in Mentions(tables.reader, title)
    {
      OverlapsIff(tables, title, evidence, description, skills, o);
    }
    hide Overlaps, Grounded, Mentions, PositiveProfile, Specific;
    assert all != [] ==> all[0] in all;
    assert Specific(all) != [] ==> Specific(all)[0] in Specific(all);
  }

  function JoinedProofs(overlaps: seq<Overlap>, seen: set<string>): string {
    if overlaps == [] then ""
    else if overlaps[0].proof in seen then JoinedProofs(overlaps[1..], seen)
    else (if seen == {} then "" else " | ") + overlaps[0].proof + JoinedProofs(overlaps[1..], seen + {overlaps[0].proof})
  }

  function JoinedBy(separator: string, texts: seq<string>): string {
    if texts == [] then "" else if |texts| == 1 then texts[0] else texts[0] + separator + JoinedBy(separator, texts[1..])
  }

  /** The proofs in the order of their overlaps, each at its first place only. */
  ghost predicate DistinctProofs(overlaps: seq<Overlap>, proofs: seq<string>) {
    && (forall i, j :: 0 <= i < j < |proofs| ==> proofs[i] != proofs[j])
    && (forall t :: t in proofs <==> exists k :: 0 <= k < |overlaps| && overlaps[k].proof == t)
    && (forall i, j :: 0 <= i < j < |proofs| ==> ProofsApart(overlaps, proofs[i], proofs[j]))
  }

  ghost predicate ProofsApart(overlaps: seq<Overlap>, first: string, second: string) {
    exists k :: 0 <= k < |overlaps| && overlaps[k].proof == first && forall m :: 0 <= m <= k ==> overlaps[m].proof != second
  }

  function Firsts(overlaps: seq<Overlap>, seen: set<string>): seq<string>
    decreases overlaps
  {
    if overlaps == [] then []
    else if overlaps[0].proof in seen then Firsts(overlaps[1..], seen)
    else [overlaps[0].proof] + Firsts(overlaps[1..], seen + {overlaps[0].proof})
  }

  lemma {:induction false} FirstsIff(overlaps: seq<Overlap>, seen: set<string>, t: string)
    ensures t in Firsts(overlaps, seen) <==> t !in seen && exists k :: 0 <= k < |overlaps| && overlaps[k].proof == t
    decreases overlaps
  {
    if overlaps != [] {
      var proof, rest := overlaps[0].proof, overlaps[1..];
      FirstsIff(rest, seen, t);
      FirstsIff(rest, seen + {proof}, t);
      if k :| 0 <= k < |rest| && rest[k].proof == t {
        assert overlaps[k + 1].proof == t;
      }
      if k :| 0 <= k < |overlaps| && overlaps[k].proof == t && k > 0 {
        assert rest[k - 1].proof == t;
      }
    }
  }

  lemma {:induction false} FirstsApart(overlaps: seq<Overlap>, seen: set<string>, i: nat, j: nat)
    requires i < j < |Firsts(overlaps, seen)|
    ensures Firsts(overlaps, seen)[i] != Firsts(overlaps, seen)[j]
    ensures ProofsApart(overlaps, Firsts(overlaps, seen)[i], Firsts(overlaps, seen)[j])
    decreases overlaps
  {
    var proof, rest, all := overlaps[0].proof, overlaps[1..], Firsts(overlaps, seen);
    FirstsIff(overlaps, seen, all[j]);
    if proof in seen || i > 0 {
      if proof in seen {
        FirstsApart(rest, seen, i, j);
      } else {
        FirstsApart(rest, seen + {proof}, i - 1, j - 1);
        FirstsIff(rest, seen + {proof}, all[j]);
        assert all[j] == Firsts(rest, seen + {proof})[j - 1];
      }
      hide Firsts;
      var k :| 0 <= k < |rest| && rest[k].proof == all[i] && forall m :: 0 <= m <= k ==> rest[m].proof != all[j];
      assert overlaps[k + 1].proof == all[i] && forall m :: 1 <= m <= k + 1 ==> overlaps[m].proof == rest[m - 1].proof;
    } else {
      FirstsIff(rest, seen + {proof}, all[j]);
      assert all[j] == Firsts(rest, seen + {proof})[j - 1];
      hide Firsts;
      assert overlaps[0].proof == all[0];
    }
  }

  lemma {:induction false} FirstsJoined(overlaps: seq<Overlap>, seen: set<string>)
    ensures var proofs := Firsts(overlaps, seen);
      JoinedProofs(overlaps, seen) == (if seen == {} || proofs == [] then "" else " | ") + JoinedBy(" | ", proofs)
    decreases overlaps
  {
    if overlaps != [] {
      var proof := overlaps[0].proof;
      if proof in seen {
        FirstsJoined(overlaps[1..], seen);
      } else {
        FirstsJoined(overlaps[1..], seen + {proof});
        assert Firsts(overlaps, seen)[1..] == Firsts(overlaps[1..], seen + {proof});
      }
    }
  }

  /** What an undecided row with overlaps cites: its proofs without repeats, joined by bars. */
  lemma JoinedProofsAre(overlaps: seq<Overlap>) returns (proofs: seq<string>)
    ensures DistinctProofs(overlaps, proofs) && JoinedProofs(overlaps, {}) == JoinedBy(" | ", proofs)
  {
    proofs := Firsts(overlaps, {});
    FirstsJoined(overlaps, {});
    forall t
      ensures t in proofs <==> exists k :: 0 <= k < |overlaps| && overlaps[k].proof == t
    {
      FirstsIff(overlaps, {}, t);
    }
    forall i, j | 0 <= i < j < |proofs|
      ensures proofs[i] != proofs[j] && ProofsApart(overlaps, proofs[i], proofs[j])
    {
      FirstsApart(overlaps, {}, i, j);
    }
  }

  /** The skill branch of `_compare_legacy`: the verdict is lowered step by step. */
  method CompareLegacyRow(tables: Tables, title: string, evidence: string, description: string, skills: seq<string>)
    returns (row: SkillRow)
    ensures row.overlaps == (if Present(tables, evidence, description)
                             then Overlaps(tables, title, evidence, description, PositiveProfile(tables.reader, skills)) else [])
    ensures row.outcome == Supported <==>
      && Present(tables, evidence, description) && SaysYes(tables, title, evidence, skills)
      && OnlySkill(tables, title, description, evidence) && SomeGround(tables, title, evidence, description, skills, false)
    ensures row.outcome == Gap <==>
      && Present(tables, evidence, description) && SaysNo(tables, title, evidence, skills) && !AnyAffirms(tables, title, skills)
      && OnlySkill(tables, title, description, evidence) && !SomeGround(tables, title, evidence, description, skills, false)
    ensures row.outcome != Unknown ==> row.proof == CompareSkill(tables, title, evidence, skills).proof
    ensures row.outcome == Unknown ==> row.proof == if row.overlaps != [] then Some(JoinedProofs(row.overlaps, {})) else None
    ensures forall o :: o in row.overlaps ==> Grounded(tables, title, evidence, description, skills, o)
  {
    VerdictMeaning(tables, title, evidence, skills);
    AffirmedAloneIff(tables, title, skills);
    OnlySkillIff(tables, title, description, evidence);
    NoGround(tables, title, evidence, description, skills);
    hide Overlaps, Contexts, CompareSkill, Mentions, PositiveProfile, AffirmedAlone, AnyAffirms, OnlySkill, SomeGround, SaysYes, SaysNo;
    if !Present(tables, evidence, description) {
      return SkillRow(Unknown, None, []);
    }
    var verdict := CompareEntries(tables, title, evidence, skills);
    var affirmative := CollectProfile(tables.reader, skills);
    var overlaps := Overlaps(tables, title, evidence, description, affirmative);
    forall o | o in overlaps
      ensures Grounded(tables, title, evidence, description, skills, o)
    {
      OverlapsIff(tables, title, evidence, description, skills, o);
    }
    hide Grounded;
    if verdict.outcome == Gap && AffirmedAlone(tables, title, skills) {
      verdict := Undecided;
    }
    var contexts := SurroundingContexts(tables.scanner, description, evidence);
    if verdict.outcome != Unknown && !AllAtomic(tables, title, contexts) {
      verdict := Undecided;
    }
    if verdict.outcome == Supported && overlaps == [] {
      verdict := Undecided;
    }
    if overlaps != [] && verdict.outcome != Supported {
      verdict := Verdict(Unknown, Some(JoinedProofs(overlaps, {})));
    }
    return SkillRow(verdict.outcome, verdict.proof, overlaps);
  }

  // ----- one atom of a requirement group

  datatype Qualifier = Qualifier(value: string, evidence: string)
  datatype Atom = Atom(isSkill: bool, value: string, evidence: string, qualifier: Option<Qualifier>)
  datatype RequirementGroup = RequirementGroup(atoms: seq<Atom>, allOf: bool, value: string, evidence: string)

  /** The group's whole source text is one unqualified skill. */
  predicate Narrow(tables: Tables, group: RequirementGroup, description: string) {
    |group.atoms| == 1 && group.allOf && group.atoms[0].isSkill && group.atoms[0].qualifier.None?
    && tables.atomic(group.atoms[0].value, group.value) && tables.atomic(group.atoms[0].value, group.evidence)
    && AllAtomic(tables, group.atoms[0].value, Contexts(tables.scanner, description, group.evidence))
  }

  function Specific(overlaps: seq<Overlap>): (r: seq<Overlap>)
    ensures forall o :: o in r <==> o in overlaps && o.specific
  {
    if overlaps == [] then [] else if overlaps[0].specific then [overlaps[0]] + Specific(overlaps[1..]) else Specific(overlaps[1..])
  }

  lemma {:induction false} PartOfPart(overlaps: seq<Overlap>, whole: seq<Mention>)
    requires PartOf(MentionsOf(overlaps), whole)
    ensures PartOf(MentionsOf(Specific(overlaps)), whole)
    decreases whole
  {
    if overlaps != [] {
      var all, some := MentionsOf(overlaps), MentionsOf(Specific(overlaps));
      if all[0] == whole[0] && PartOf(all[1..], whole[1..]) {
        assert all[1..] == MentionsOf(overlaps[1..]);
        PartOfPart(overlaps[1..], whole[1..]);
        if overlaps[0].specific {
          assert some[1..] == MentionsOf(Specific(overlaps[1..]));
        }
      } else {
        PartOfPart(overlaps, whole[1..]);
      }
    }
  }

  /** All overlaps and the specific ones stand in the order of the label's mentions. */
  lemma SpecificInOrder(tables: Tables, title: string, evidence: string, description: string, profile: map<nat, string>)
    ensures var all, ms := Overlaps(tables, title, evidence, description, profile), Mentions(tables.reader, title);
      PartOf(MentionsOf(all), ms) && PartOf(MentionsOf(Specific(all)), ms)
  {
    hide Mentions, Shared, Contexts, Certain;
    var ms := Mentions(tables.reader, title);
    SharedInOrder(tables.reader, ms, evidence, Contexts(tables.scanner, description, evidence), profile);
    PartOfPart(Overlaps(tables, title, evidence, description, profile), ms);
  }

  predicate Sourced(tables: Tables, atom: Atom, group: RequirementGroup, description: string) {
    && Present(tables, group.evidence, description) && Present(tables, atom.evidence, description)
    && (atom.qualifier.Some? ==> Present(tables, atom.qualifier.value.evidence, description))
  }

  /** The atom may be compared with saved skills at all. */
  predicate Comparable(tables: Tables, atom: Atom, group: RequirementGroup, description: string) {
    Sourced(tables, atom, group, description) && atom.isSkill
    && !Uncertain(tables.reader, group.value) && !Uncertain(tables.reader, group.evidence)
  }

  /** The group's whole source text is one unqualified skill, read off the group. */
  predicate OneSkill(tables: Tables, group: RequirementGroup, description: string) {
    group.allOf && |group.atoms| == 1 && var atom := group.atoms[0];
    && atom.isSkill && atom.qualifier.None? && tables.atomic(atom.value, group.value) && tables.atomic(atom.value, group.evidence)
    && OnlySkill(tables, atom.value, description, group.evidence)
  }

  /** The texts that must be in the posting, and those that must be certain. */
  predicate Grounds(tables: Tables, atom: Atom, group: RequirementGroup, description: string) {
    && atom.isSkill
    && (forall e :: e in [group.evidence, atom.evidence] + (if atom.qualifier.Some? then [atom.qualifier.value.evidence] else []) ==>
          tables.scanner.normalized(e) != "" && In(tables.scanner.normalized(e), tables.scanner.normalized(description)))
    && (forall t :: t in [group.value, group.evidence] ==> |t| <= MAX_TEXT_LENGTH && !tables.reader.uncertain(t))
  }

  lemma GroundsIff(tables: Tables, atom: Atom, group: RequirementGroup, description: string)
    ensures Comparable(tables, atom, group, description) <==> Grounds(tables, atom, group, description)
  {
    hide In;
  }

  lemma OneSkillIff(tables: Tables, group: RequirementGroup, description: string)
    ensures Narrow(tables, group, description) <==> OneSkill(tables, group, description)
  {
    if |group.atoms| == 1 {
      OnlySkillIff(tables, group.atoms[0].value, description, group.evidence);
    }
    hide AllAtomic, OnlySkill;
  }

  /** What the comparison of one condition answers. */
  ghost predicate AtomRow(tables: Tables, atom: Atom, group: RequirementGroup, description: string, skills: seq<string>, row: SkillRow) {
    && (row.outcome == Supported <==>
          && Grounds(tables, atom, group, description) && OneSkill(tables, group, description)
          && OnlySkill(tables, atom.value, description, atom.evidence) && SaysYes(tables, atom.value, atom.evidence, skills)
          && SomeGround(tables, atom.value, atom.evidence, description, skills, true))
    && (row.outcome == Gap <==>
          && Grounds(tables, atom, group, description) && OneSkill(tables, group, description)
          && OnlySkill(tables, atom.value, description, atom.evidence) && SaysNo(tables, atom.value, atom.evidence, skills)
          && !AnyAffirms(tables, atom.value, skills) && !SomeGround(tables, atom.value, atom.evidence, description, skills, true))
    && (row.overlaps != [] <==>
          Grounds(tables, atom, group, description) && SomeGround(tables, atom.value, atom.evidence, description, skills, true))
    && (forall o :: o in row.overlaps <==>
          && Grounds(tables, atom, group, description) && o.specific
          && Grounded(tables, atom.value, atom.evidence, description, skills, o) && Mention(o.skill, o.specific) in Mentions(tables.reader, atom.value))
    && PartOf(MentionsOf(row.overlaps), Mentions(tables.reader, atom.value))
    && (row.outcome != Unknown ==> row.proof == CompareSkill(tables, atom.value, atom.evidence, skills).proof)
    && (row.outcome == Unknown && row.overlaps != [] ==> row.proof == Some(JoinedProofs(row.overlaps, {})))
  }

  /** `_compare_group_atom`. */
  method CompareAtom(tables: Tables, atom: Atom, group: RequirementGroup, description: string, skills: seq<string>)
    returns (row: SkillRow)
    ensures AtomRow(tables, atom, group, description, skills, row)
  {
    VerdictMeaning(tables, atom.value, atom.evidence, skills);
    AffirmedAloneIff(tables, atom.value, skills);
    OnlySkillIff(tables, atom.value, description, atom.evidence);
    NoGround(tables, atom.value, atom.evidence, description, skills);
    OneSkillIff(tables, group, description);
    GroundsIff(tables, atom, group, description);
    hide Overlaps, Contexts, CompareSkill, Mentions, PositiveProfile, AffirmedAlone, Narrow, Sourced, AnyAffirms, OnlySkill, SomeGround,
      SaysYes, SaysNo, Grounds, OneSkill;
    if !Sourced(tables, atom, group, description) || !atom.isSkill
       || Uncertain(tables.reader, group.value) || Uncertain(tables.reader, group.evidence) {
      return SkillRow(Unknown, None, []);
    }
    var affirmative := CollectProfile(tables.reader, skills);
    var all := Overlaps(tables, atom.value, atom.evidence, description, affirmative);
    var overlaps := Specific(all);
    forall o
      ensures o in overlaps <==> o.specific && Grounded(tables, atom.value, atom.evidence, description, skills, o)
                                 && Mention(o.skill, o.specific) in Mentions(tables.reader, atom.value)
    {
      OverlapsIff(tables, atom.value, atom.evidence, description, skills, o);
    }
    SpecificInOrder(tables, atom.value, atom.evidence, description, affirmative);
    hide Grounded, Specific, PartOf, MentionsOf;
    var verdict := CompareEntries(tables, atom.value, atom.evidence, skills);
    var contexts := SurroundingContexts(tables.scanner, description, atom.evidence);
    var condition := Undecided;
    if Narrow(tables, group, description) && AllAtomic(tables, atom.value, contexts) && (verdict.outcome == Gap || overlaps != []) {
      var contradictory := verdict.outcome == Gap && AffirmedAlone(tables, atom.value, skills);
      if !contradictory {
        condition := verdict;
      }
    }
    if overlaps != [] && condition.outcome != Supported {
      condition := Verdict(Unknown, Some(JoinedProofs(overlaps, {})));
    }
    return SkillRow(condition.outcome, condition.proof, overlaps);
  }

  /** A group of `_compare_v2`: the answer of its one condition if it is one unqualified skill, and
      unknown otherwise, whatever its conditions say. */
  method CompareGroup(tables: Tables, group: RequirementGroup, description: string, skills: seq<string>)
    returns (outcome: Outcome, rows: seq<SkillRow>)
    ensures |rows| == |group.atoms|
    ensures forall i :: 0 <= i < |rows| ==> AtomRow(tables, group.atoms[i], group, description, skills, rows[i])
    ensures outcome == (if OneSkill(tables, group, description) then rows[0].outcome else Unknown)
    ensures outcome == Supported <==>
      && OneSkill(tables, group, description) && Grounds(tables, group.atoms[0], group, description)
      && OnlySkill(tables, group.atoms[0].value, description, group.atoms[0].evidence)
      && SaysYes(tables, group.atoms[0].value, group.atoms[0].evidence, skills)
      && SomeGround(tables, group.atoms[0].value, group.atoms[0].evidence, description, skills, true)
  {
    OneSkillIff(tables, group, description);
    hide Grounds, OnlySkill, SaysYes, SaysNo, SomeGround, AnyAffirms, Grounded;
    rows := [];
    for i := 0 to |group.atoms|
      invariant |rows| == i
      invariant forall k :: 0 <= k < i ==> AtomRow(tables, group.atoms[k], group, description, skills, rows[k])
    {
      var row := CompareAtom(tables, group.atoms[i], group, description, skills);
      rows := rows + [row];
    }
    outcome := if Narrow(tables, group, description) then rows[0].outcome else Unknown;
    assert outcome != Unknown ==> AtomRow(tables, group.atoms[0], group, description, skills, rows[0]);
  }
}
