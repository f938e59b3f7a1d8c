/** The skills a saved profile affirms: any uncertain or alternative entry vetoes the skills it
    names across the whole list. */
module PositiveProfiles {
  import opened Wrappers
  import opened SkillMentions

  predicate Unsafe(reader: Reader, entry: string) {
    |entry| > MAX_TEXT_LENGTH || reader.uncertain(entry) || reader.alternative(entry)
  }

  predicate Affirms(reader: Reader, entry: string, skill: nat) {
    !Unsafe(reader, entry) && Names(reader, entry, skill)
  }

  predicate Vetoes(reader: Reader, entry: string, skill: nat) {
    Unsafe(reader, entry) && Names(reader, entry, skill)
  }

  predicate SomeAffirms(reader: Reader, entries: seq<string>, skill: nat) {
    exists i :: 0 <= i < |entries| && Affirms(reader, entries[i], skill)
  }

  predicate SomeVetoes(reader: Reader, entries: seq<string>, skill: nat) {
    exists i :: 0 <= i < |entries| && Vetoes(reader, entries[i], skill)
  }

  /** The first entry that affirms the skill. */
  predicate FirstAffirming(reader: Reader, entries: seq<string>, skill: nat, entry: string) {
    exists i :: 0 <= i < |entries| && AffirmsFirst(reader, entries, skill, i) && entries[i] == entry
  }

  predicate AffirmsFirst(reader: Reader, entries: seq<string>, skill: nat, i: nat)
    requires i < |entries|
  {
    Affirms(reader, entries[i], skill) && forall j :: 0 <= j < i ==> !Affirms(reader, entries[j], skill)
  }

  predicate InLimits(entries: seq<string>) {
    |entries| <= MAX_PROFILE_ENTRIES && forall i :: 0 <= i < |entries| ==> |entries[i]| <= MAX_PROFILE_ENTRY_LENGTH
  }

  // ----- the two collections

  function SkillSet(ms: seq<Mention>): set<nat> {
    set k | 0 <= k < |ms| :: ms[k].skill
  }

  function SetDefaults(found: map<nat, string>, ms: seq<Mention>, entry: string): map<nat, string> {
    map s | s in SkillSet(ms) :: entry
  }

  function AddAffirmed(found: map<nat, string>, ms: seq<Mention>, entry: string): map<nat, string> {
    SetDefaults(found, ms, entry) + found
  }

  function Affirmative(reader: Reader, entries: seq<string>): map<nat, string> {
    if entries == [] then map[]
    else
      var init, last := Affirmative(reader, entries[..|entries| - 1]), entries[|entries| - 1];
      if Unsafe(reader, last) then init else AddAffirmed(init, Mentions(reader, last), last)
  }

  function Vetoed(reader: Reader, entries: seq<string>): set<nat> {
    if entries == [] then {}
    else
      var init, last := Vetoed(reader, entries[..|entries| - 1]), entries[|entries| - 1];
      if Unsafe(reader, last) then init + SkillSet(Mentions(reader, last)) else init
  }

  function PositiveProfile(reader: Reader, entries: seq<string>): map<nat, string> {
    if !InLimits(entries) then map[]
    else Affirmative(reader, entries) - Vetoed(reader, entries)
  }

  /** The loop of `positive_profile`. */
  method CollectProfile(reader: Reader, entries: seq<string>) returns (profile: map<nat, string>)
    ensures profile == PositiveProfile(reader, entries)
  {
    if |entries| > MAX_PROFILE_ENTRIES || exists i :: 0 <= i < |entries| && |entries[i]| > MAX_PROFILE_ENTRY_LENGTH {
      return map[];
    }
    var affirmative, vetoed := CollectEntries(reader, entries);
    return affirmative - vetoed;
  }

  method CollectEntries(reader: Reader, entries: seq<string>) returns (affirmative: map<nat, string>, vetoed: set<nat>)
    ensures affirmative == Affirmative(reader, entries) && vetoed == Vetoed(reader, entries)
  {
    affirmative, vetoed := map[], {};
    hide Mentions, Unsafe, AddAffirmed, SkillSet;
    for i := 0 to |entries|
      invariant affirmative == Affirmative(reader, entries[..i]) && vetoed == Vetoed(reader, entries[..i])
    {
      assert entries[..i + 1][..i] == entries[..i];
      var found := FindMentions(reader, entries[i]);
      if Unsafe(reader, entries[i]) {
        vetoed := vetoed + SkillSet(found);
      } else {
        affirmative := SetEach(affirmative, found, entries[i]);
      }
    }
    assert entries[..|entries|] == entries;
  }

  /** `setdefault` for each mention. */
  method SetEach(found: map<nat, string>, ms: seq<Mention>, entry: string) returns (r: map<nat, string>)
    ensures r == AddAffirmed(found, ms, entry)
  {
    r := found;
    for k := 0 to |ms|
      invariant r == AddAffirmed(found, ms[..k], entry)
    {
      AddOne(found, ms, k, entry);
      if ms[k].skill !in r {
        r := r[ms[k].skill := entry];
      }
    }
    assert ms[..|ms|] == ms;
  }

  lemma AddOne(found: map<nat, string>, ms: seq<Mention>, k: nat, entry: string)
    requires k < |ms|
    ensures var before := AddAffirmed(found, ms[..k], entry);
      AddAffirmed(found, ms[..k + 1], entry) == if ms[k].skill in before then before else before[ms[k].skill := entry]
  {
    assert ms[..k + 1] == ms[..k] + [ms[k]];
    SkillSetAppend(ms[..k], ms[k]);
  }

  lemma SkillSetAppend(ms: seq<Mention>, m: Mention)
    ensures SkillSet(ms + [m]) == SkillSet(ms) + {m.skill}
  {
    var longer := ms + [m];
    assert longer[|ms|] == m;
    assert forall k :: 0 <= k < |ms| ==> longer[k] == ms[k];
    forall s | s in SkillSet(ms)
      ensures s in SkillSet(longer)
    {
      var k :| 0 <= k < |ms| && ms[k].skill == s;
      assert longer[k].skill == s;
    }
  }

  // ----- what the profile means

  lemma SkillSetNames(reader: Reader, text: string, skill: nat)
    ensures skill in SkillSet(Mentions(reader, text)) <==> Names(reader, text, skill)
  {
    MentionsName(reader, text, skill);
  }

  lemma {:induction false} AffirmativeMeaning(reader: Reader, entries: seq<string>, skill: nat)
    ensures skill in Affirmative(reader, entries) <==> SomeAffirms(reader, entries, skill)
    ensures skill in Affirmative(reader, entries) ==> FirstAffirming(reader, entries, skill, Affirmative(reader, entries)[skill])
  {
    hide Unsafe, Names, Mentions;
    if entries != [] {
      var init, last := entries[..|entries| - 1], entries[|entries| - 1];
      AffirmativeMeaning(reader, init, skill);
      SkillSetNames(reader, last, skill);
      assert forall i :: 0 <= i < |init| ==> init[i] == entries[i];
      if skill in Affirmative(reader, init) {
        var i :| 0 <= i < |init| && AffirmsFirst(reader, init, skill, i) && init[i] == Affirmative(reader, init)[skill];
        assert AffirmsFirst(reader, entries, skill, i);
      } else if skill in Affirmative(reader, entries) {
        assert AffirmsFirst(reader, entries, skill, |entries| - 1);
      }
    }
  }

  lemma {:induction false} VetoedMeaning(reader: Reader, entries: seq<string>, skill: nat)
    ensures skill in Vetoed(reader, entries) <==> SomeVetoes(reader, entries, skill)
  {
    hide Unsafe, Names, Mentions;
    if entries != [] {
      var init, last := entries[..|entries| - 1], entries[|entries| - 1];
      VetoedMeaning(reader, init, skill);
      SkillSetNames(reader, last, skill);
      assert forall i :: 0 <= i < |init| ==> init[i] == entries[i];
      if SomeVetoes(reader, init, skill) {
        var i :| 0 <= i < |init| && Vetoes(reader, init[i], skill);
        assert Vetoes(reader, entries[i], skill);
      }
    }
  }

  /** A skill is in the profile exactly when some entry affirms it and no entry vetoes it; its
      evidence is the first affirming entry, word for word. */
  lemma ProfileMeaning(reader: Reader, entries: seq<string>, skill: nat)
    ensures skill in PositiveProfile(reader, entries) <==>
      |entries| <= 100 && (forall e :: e in entries ==> |e| <= 100) && SomeAffirms(reader, entries, skill) && !SomeVetoes(reader, entries, skill)
    ensures skill in PositiveProfile(reader, entries) ==>
      FirstAffirming(reader, entries, skill, PositiveProfile(reader, entries)[skill])
  {
    hide Affirmative, Vetoed;
    AffirmativeMeaning(reader, entries, skill);
    VetoedMeaning(reader, entries, skill);
    assert InLimits(entries) <==> |entries| <= 100 && forall e :: e in entries ==> |e| <= 100;
  }

  lemma SameEntries(a: seq<string>, b: seq<string>)
    requires multiset(a) == multiset(b)
    ensures |a| == |b| && forall e :: e in a <==> e in b
  {
    assert |multiset(a)| == |a| && |multiset(b)| == |b|;
    forall e
      ensures e in a <==> e in b
    {
      assert e in multiset(a) <==> e in multiset(b);
    }
  }

  /** The affirmed skills do not depend on the order of the entries. */
  lemma OrderDoesNotMatter(reader: Reader, a: seq<string>, b: seq<string>)
    requires multiset(a) == multiset(b)
    ensures PositiveProfile(reader, a).Keys == PositiveProfile(reader, b).Keys
  {
    SameEntries(a, b);
    hide PositiveProfile;
    forall skill
      ensures skill in PositiveProfile(reader, a) <==> skill in PositiveProfile(reader, b)
    {
      ProfileMeaning(reader, a, skill);
      ProfileMeaning(reader, b, skill);
      SameAnswers(reader, a, b, skill);
      SameAnswers(reader, b, a, skill);
    }
  }

  lemma SameAnswers(reader: Reader, a: seq<string>, b: seq<string>, skill: nat)
    requires |a| == |b| && forall e :: e in a <==> e in b
    ensures SomeAffirms(reader, a, skill) ==> SomeAffirms(reader, b, skill)
    ensures SomeVetoes(reader, a, skill) ==> SomeVetoes(reader, b, skill)
    ensures InLimits(a) ==> InLimits(b)
  {
    hide Affirms, Vetoes;
    if SomeAffirms(reader, a, skill) {
      var i :| 0 <= i < |a| && Affirms(reader, a[i], skill);
      assert a[i] in a;
      var j :| 0 <= j < |b| && b[j] == a[i];
      assert Affirms(reader, b[j], skill);
    }
    if SomeVetoes(reader, a, skill) {
      var i :| 0 <= i < |a| && Vetoes(reader, a[i], skill);
      assert a[i] in a;
      var j :| 0 <= j < |b| && b[j] == a[i];
      assert Vetoes(reader, b[j], skill);
    }
    forall j | 0 <= j < |b|
      ensures b[j] in a
    {
      assert b[j] in b;
    }
  }

  /** An unsafe entry affirms nothing and vetoes what it names. */
  lemma UnsafeEntry(reader: Reader, a: seq<string>, entry: string, b: seq<string>, skill: nat)
    requires Unsafe(reader, entry)
    ensures SomeAffirms(reader, a + [entry] + b, skill) <==> SomeAffirms(reader, a + b, skill)
    ensures SomeVetoes(reader, a + [entry] + b, skill) <==> SomeVetoes(reader, a + b, skill) || Names(reader, entry, skill)
  {
    hide Names;
    var with, without := a + [entry] + b, a + b;
    assert forall i :: 0 <= i < |without| ==> without[i] == if i < |a| then with[i] else with[i + 1];
    assert with[|a|] == entry;
    assert Vetoes(reader, with[|a|], skill) <==> Names(reader, entry, skill);
    hide Unsafe;
    if SomeAffirms(reader, without, skill) {
      var i :| 0 <= i < |without| && Affirms(reader, without[i], skill);
      assert Affirms(reader, with[if i < |a| then i else i + 1], skill);
    }
    if SomeAffirms(reader, with, skill) {
      var i :| 0 <= i < |with| && Affirms(reader, with[i], skill);
      assert Affirms(reader, without[if i < |a| then i else i - 1], skill);
    }
    if SomeVetoes(reader, without, skill) {
      var i :| 0 <= i < |without| && Vetoes(reader, without[i], skill);
      assert Vetoes(reader, with[if i < |a| then i else i + 1], skill);
    }
    if SomeVetoes(reader, with, skill) && !Names(reader, entry, skill) {
      var i :| 0 <= i < |with| && Vetoes(reader, with[i], skill);
      assert i != |a|;
      assert Vetoes(reader, without[if i < |a| then i else i - 1], skill);
    }
  }

  /** An unsafe entry, put anywhere, removes exactly the skills it names, and everything if the
      list then exceeds the limits: it only ever shrinks the profile. */
  lemma VetoRemoves(reader: Reader, a: seq<string>, entry: string, b: seq<string>, skill: nat)
    requires Unsafe(reader, entry)
    ensures skill in PositiveProfile(reader, a + [entry] + b) <==>
      InLimits(a + [entry] + b) && skill in PositiveProfile(reader, a + b) && !Names(reader, entry, skill)
  {
    var with, without := a + [entry] + b, a + b;
    ProfileMeaning(reader, with, skill);
    ProfileMeaning(reader, without, skill);
    UnsafeEntry(reader, a, entry, b, skill);
    if InLimits(with) {
      forall i | 0 <= i < |without|
        ensures |without[i]| <= MAX_PROFILE_ENTRY_LENGTH
      {
        assert without[i] == with[if i < |a| then i else i + 1];
      }
      assert InLimits(without);
    }
    hide PositiveProfile, Names, SomeAffirms, SomeVetoes, Unsafe;
  }
}
