/** The per-question cache of `prepare_answers`: what a request still needs, what a failed call
    leaves behind and what a plan adds. */
module AnswerCaches {
  import opened Wrappers

  const MAX_MODEL_FIELDS: nat := 40

  /** A pending entry is a question key or the `__common__` drafts. */
  datatype Pending = Question(key: nat) | Common

  datatype Kind = Intro | Experience | Motivation

  /** `Mapping` is a saved fact a question maps to. */
  datatype Entry = Failed(code: string) | Mapping(fact: nat) | Answered(text: string)

  datatype Cache = Cache(fields: map<nat, Entry>, attempted: bool, drafts: map<Kind, Entry>)

  const Empty: Cache := Cache(map[], false, map[])

  /** One question of a request, with what the local rules say about it. */
  datatype Field = Field(key: nat, protected: bool, saved: bool, manual: bool, intent: bool)

  predicate Cached(cache: Cache, p: Pending) {
    match p
    case Question(key) => key in cache.fields
    case Common => cache.attempted
  }

  // ----- merging, failing and planning

  function MergeShared(cache: Cache, shared: map<nat, nat>): Cache {
    cache.(fields := cache.fields + map k | k in shared :: Mapping(shared[k]))
  }

  predicate HasQuestion(pending: seq<Pending>, key: nat) {
    Question(key) in pending
  }

  function QuestionKeys(pending: seq<Pending>): set<nat> {
    set i | 0 <= i < |pending| && pending[i].Question? :: pending[i].key
  }

  function WithDefaults(drafts: map<Kind, Entry>, entry: Entry): map<Kind, Entry> {
    map[Intro := entry, Experience := entry, Motivation := entry] + drafts
  }

  /** Every pending key is recorded as failed; drafts already there are kept. */
  function FailPending(cache: Cache, pending: seq<Pending>, code: string): Cache {
    Cache(cache.fields + map k | k in QuestionKeys(pending) :: Failed(code),
          cache.attempted || Common in pending,
          if Common in pending then WithDefaults(cache.drafts, Failed(code)) else cache.drafts)
  }

  lemma FailPendingCaches(cache: Cache, pending: seq<Pending>, code: string, p: Pending)
    ensures Cached(FailPending(cache, pending, code), p) <==> Cached(cache, p) || p in pending
  {
    if p.Question? && p in pending {
      var i :| 0 <= i < |pending| && pending[i] == p;
      assert pending[i].key in QuestionKeys(pending);
    }
  }

  lemma MergeSharedCaches(cache: Cache, shared: map<nat, nat>, p: Pending)
    ensures Cached(MergeShared(cache, shared), p) <==> Cached(cache, p) || (p.Question? && p.key in shared)
  {
  }

  lemma FailPendingStep(cache: Cache, pending: seq<Pending>, i: nat, code: string)
    requires i < |pending|
    ensures var before := FailPending(cache, pending[..i], code);
      FailPending(cache, pending[..i + 1], code) ==
      match pending[i]
      case Question(key) => before.(fields := before.fields[key := Failed(code)])
      case Common => before.(attempted := true, drafts := WithDefaults(before.drafts, Failed(code)))
  {
    assert pending[..i + 1] == pending[..i] + [pending[i]];
    hide FailPending;
    match pending[i]
    case Question(key) => FailQuestion(cache, pending[..i], key, code);
    case Common => FailCommon(cache, pending[..i], code);
  }

  lemma FailQuestion(cache: Cache, init: seq<Pending>, key: nat, code: string)
    ensures var before := FailPending(cache, init, code);
      FailPending(cache, init + [Question(key)], code) == before.(fields := before.fields[key := Failed(code)])
  {
    QuestionKeysAppend(init, Question(key));
    FailedMapAppend(cache.fields, QuestionKeys(init), key, Failed(code));
    hide QuestionKeys, WithDefaults;
    assert Common in init + [Question(key)] <==> Common in init;
  }

  lemma FailCommon(cache: Cache, init: seq<Pending>, code: string)
    ensures var before := FailPending(cache, init, code);
      FailPending(cache, init + [Common], code) == before.(attempted := true, drafts := WithDefaults(before.drafts, Failed(code)))
  {
    QuestionKeysAppend(init, Common);
    DefaultsTwice(cache.drafts, Failed(code));
    hide QuestionKeys, WithDefaults;
    assert Common in init + [Common];
  }

  lemma DefaultsTwice(drafts: map<Kind, Entry>, entry: Entry)
    ensures WithDefaults(WithDefaults(drafts, entry), entry) == WithDefaults(drafts, entry)
  {
  }

  lemma FailedMapAppend(fields: map<nat, Entry>, keys: set<nat>, key: nat, entry: Entry)
    ensures fields + (map k | k in keys + {key} :: entry) == (fields + map k | k in keys :: entry)[key := entry]
  {
  }

  lemma QuestionKeysAppend(init: seq<Pending>, p: Pending)
    ensures QuestionKeys(init + [p]) == QuestionKeys(init) + (if p.Question? then {p.key} else {})
  {
    forall k | k in QuestionKeys(init)
      ensures k in QuestionKeys(init + [p])
    {
      var j :| 0 <= j < |init| && init[j].Question? && init[j].key == k;
      assert (init + [p])[j] == init[j];
    }
    assert (init + [p])[|init|] == p;
  }

  method SetDefaults(drafts: map<Kind, Entry>, entry: Entry) returns (filled: map<Kind, Entry>)
    ensures filled == WithDefaults(drafts, entry)
  {
    filled := drafts;
    if Intro !in filled {
      filled := filled[Intro := entry];
    }
    if Experience !in filled {
      filled := filled[Experience := entry];
    }
    if Motivation !in filled {
      filled := filled[Motivation := entry];
    }
    assert filled.Keys == WithDefaults(drafts, entry).Keys;
  }

  lemma FailNothing(cache: Cache, code: string)
    ensures FailPending(cache, [], code) == cache
  {
    assert QuestionKeys([]) == {};
  }

  /** `_fail_pending` as it runs, one key at a time over copies of the two maps. */
  method FailPendingKeys(cache: Cache, pending: seq<Pending>, code: string) returns (result: Cache)
    ensures result == FailPending(cache, pending, code)
  {
    hide FailPending, WithDefaults;
    result := cache;
    assert pending[..0] == [];
    FailNothing(cache, code);
    for i := 0 to |pending|
      invariant result == FailPending(cache, pending[..i], code)
    {
      FailPendingStep(cache, pending, i, code);
      match pending[i]
      case Question(key) =>
        result := result.(fields := result.fields[key := Failed(code)]);
      case Common =>
        var drafts := SetDefaults(result.drafts, Failed(code));
        result := result.(attempted := true, drafts := drafts);
    }
    assert pending[..|pending|] == pending;
  }

  // ----- what a request needs

  predicate Asks(cache: Cache, warm: bool, field: Field) {
    !field.protected && !field.saved && !field.manual && !(field.intent && warm) && field.key !in cache.fields
  }

  predicate AsksCommon(cache: Cache, warm: bool, field: Field) {
    !field.protected && !field.saved && !field.manual && field.intent && warm && !cache.attempted
  }

  function Unknown(fields: seq<Field>, cache: Cache, warm: bool): seq<Field> {
    if fields == [] then []
    else
      var init := Unknown(fields[..|fields| - 1], cache, warm);
      if Asks(cache, warm, fields[|fields| - 1]) then init + [fields[|fields| - 1]] else init
  }

  predicate NeedsCommon(fields: seq<Field>, cache: Cache, warm: bool) {
    exists i :: 0 <= i < |fields| && AsksCommon(cache, warm, fields[i])
  }

  /** `_needed`: the questions that neither local rules nor the cache answer. */
  method Needed(fields: seq<Field>, cache: Cache, warm: bool) returns (unknown: seq<Field>, common: bool)
    ensures unknown == Unknown(fields, cache, warm)
    ensures common <==> NeedsCommon(fields, cache, warm)
  {
    unknown, common := [], false;
    for i := 0 to |fields|
      invariant unknown == Unknown(fields[..i], cache, warm)
      invariant common <==> exists j :: 0 <= j < i && AsksCommon(cache, warm, fields[j])
    {
      var field := fields[i];
      assert fields[..i + 1][..i] == fields[..i];
      if field.protected || field.saved || field.manual {
      } else if field.intent && warm {
        common := common || !cache.attempted;
      } else if field.key !in cache.fields {
        unknown := unknown + [field];
      }
      assert AsksCommon(cache, warm, fields[i]) ==> common;
    }
    assert fields[..|fields|] == fields;
  }

  lemma {:induction false} UnknownMeaning(fields: seq<Field>, cache: Cache, warm: bool, field: Field)
    ensures field in Unknown(fields, cache, warm) <==> field in fields && Asks(cache, warm, field)
  {
    if fields != [] {
      UnknownMeaning(fields[..|fields| - 1], cache, warm, field);
      assert fields == fields[..|fields| - 1] + [fields[|fields| - 1]];
    }
  }

  /** The pending list of a new claim. */
  function PendingOf(unknown: seq<Field>, warm: bool, cache: Cache): seq<Pending> {
    seq(|unknown|, i requires 0 <= i < |unknown| => Question(unknown[i].key))
    + if warm && !cache.attempted then [Common] else []
  }

  /** Nothing that is already cached is ever asked again. */
  lemma PendingIsUncached(fields: seq<Field>, warm: bool, cache: Cache, p: Pending)
    requires p in PendingOf(Unknown(fields, cache, warm), warm, cache)
    ensures !Cached(cache, p)
  {
    var unknown := Unknown(fields, cache, warm);
    if p.Question? {
      var i :| 0 <= i < |unknown| && unknown[i].key == p.key;
      UnknownMeaning(fields, cache, warm, unknown[i]);
    }
  }

  /** What a call asks: exactly the questions of the request that are not protected, not answered by
      a saved fact, not a manual preference, not a draft of a warm-up and not cached; and the drafts
      of a warm-up that were never attempted. */
  lemma AskedIff(fields: seq<Field>, warm: bool, cache: Cache, p: Pending)
    ensures p in PendingOf(Unknown(fields, cache, warm), warm, cache) <==>
      match p
      case Question(key) => key !in cache.fields && exists i :: 0 <= i < |fields| && fields[i].key == key && Open(fields[i], warm)
      case Common => warm && !cache.attempted
  {
    var unknown := Unknown(fields, cache, warm);
    var pending := PendingOf(unknown, warm, cache);
    match p
    case Common => assert warm && !cache.attempted ==> pending[|unknown|] == Common;
    case Question(key) =>
      if Question(key) in pending {
        var i :| 0 <= i < |unknown| && unknown[i].key == key;
        UnknownMeaning(fields, cache, warm, unknown[i]);
        var j :| 0 <= j < |fields| && fields[j] == unknown[i];
      }
      if i :| key !in cache.fields && 0 <= i < |fields| && fields[i].key == key && Open(fields[i], warm) {
        UnknownMeaning(fields, cache, warm, fields[i]);
        var j :| 0 <= j < |unknown| && unknown[j] == fields[i];
        assert pending[j] == Question(key);
      }
  }

  /** A question that only the model could answer. */
  predicate Open(field: Field, warm: bool) {
    !(field.protected || field.saved || field.manual || (warm && field.intent))
  }

  /** The drafts are needed exactly for an unprotected, unsaved, non-manual draft question of a
      warm-up that was never attempted. */
  lemma NeedsCommonIff(fields: seq<Field>, cache: Cache, warm: bool)
    ensures NeedsCommon(fields, cache, warm) <==>
      warm && !cache.attempted
      && exists i :: 0 <= i < |fields| && fields[i].intent && !(fields[i].protected || fields[i].saved || fields[i].manual)
  {
    if i :| 0 <= i < |fields| && fields[i].intent && !(fields[i].protected || fields[i].saved || fields[i].manual) {
      assert warm && !cache.attempted ==> AsksCommon(cache, warm, fields[i]);
    }
  }

  // ----- what the model's answer makes of the cache

  datatype Outcome = Plan(answers: map<nat, Entry>, drafts: map<Kind, Entry>) | Error(code: string)

  /** Only the first forty pending fields are shown, and drafts only when asked for. */
  function Askable(unknown: seq<Field>): set<nat> {
    set i | 0 <= i < |unknown| && i < MAX_MODEL_FIELDS :: unknown[i].key
  }

  predicate GoodPlan(unknown: seq<Field>, pending: seq<Pending>, outcome: Outcome) {
    outcome.Plan? && outcome.answers.Keys <= Askable(unknown) && (outcome.drafts != map[] ==> Common in pending)
  }

  function ErrorOf(unknown: seq<Field>, pending: seq<Pending>, outcome: Outcome): Option<string> {
    if GoodPlan(unknown, pending, outcome) then None
    else Some(if outcome.Error? then outcome.code else "invalid_answer_preparation")
  }

  function ResultOf(cache: Cache, unknown: seq<Field>, pending: seq<Pending>, outcome: Outcome): Cache {
    if GoodPlan(unknown, pending, outcome) then
      var base := FailPending(cache, pending, "question_not_analyzed");
      base.(fields := base.fields + outcome.answers, drafts := base.drafts + outcome.drafts)
    else FailPending(cache, pending, ErrorOf(unknown, pending, outcome).value)
  }

  /** Whatever the model answers, the result holds exactly the old keys and the pending ones. */
  lemma ResultCaches(cache: Cache, fields: seq<Field>, warm: bool, outcome: Outcome, p: Pending)
    ensures var unknown := Unknown(fields, cache, warm);
      var pending := PendingOf(unknown, warm, cache);
      Cached(ResultOf(cache, unknown, pending, outcome), p) <==> Cached(cache, p) || p in pending
  {
    var unknown := Unknown(fields, cache, warm);
    var pending := PendingOf(unknown, warm, cache);
    FailPendingCaches(cache, pending, "question_not_analyzed", p);
    if GoodPlan(unknown, pending, outcome) && p.Question? && p.key in outcome.answers {
      var i :| 0 <= i < |unknown| && i < MAX_MODEL_FIELDS && unknown[i].key == p.key;
      assert pending[i] == p;
    } else if !GoodPlan(unknown, pending, outcome) {
      FailPendingCaches(cache, pending, ErrorOf(unknown, pending, outcome).value, p);
    }
  }

  lemma FailPendingEntries(cache: Cache, pending: seq<Pending>, code: string, key: nat)
    ensures var r := FailPending(cache, pending, code);
      && (Question(key) in pending ==> key in r.fields && r.fields[key] == Failed(code))
      && (Question(key) !in pending ==> (key in r.fields <==> key in cache.fields) && (key in r.fields ==> r.fields[key] == cache.fields[key]))
      && (r.attempted <==> cache.attempted || Common in pending)
  {
    FailPendingCaches(cache, pending, code, Question(key));
    if Question(key) in pending {
      var i :| 0 <= i < |pending| && pending[i] == Question(key);
      assert pending[i].key in QuestionKeys(pending);
    }
    hide WithDefaults;
  }

  /** Drafts already there are kept; if drafts were pending, each missing kind is recorded as
      failed. */
  lemma FailPendingDrafts(cache: Cache, pending: seq<Pending>, code: string, kind: Kind)
    ensures var r := FailPending(cache, pending, code);
      && (kind in cache.drafts ==> kind in r.drafts && r.drafts[kind] == cache.drafts[kind])
      && (kind !in cache.drafts && Common in pending ==> kind in r.drafts && r.drafts[kind] == Failed(code))
      && (kind !in cache.drafts && Common !in pending ==> kind !in r.drafts)
  {
    hide QuestionKeys;
  }

  lemma MergeSharedEntries(cache: Cache, shared: map<nat, nat>, key: nat)
    ensures var r := MergeShared(cache, shared);
      && (key in shared ==> key in r.fields && r.fields[key] == Mapping(shared[key]))
      && (key !in shared ==> (key in r.fields <==> key in cache.fields) && (key in r.fields ==> r.fields[key] == cache.fields[key]))
      && r.attempted == cache.attempted && r.drafts == cache.drafts
  {
  }

  /** A plan is usable exactly when it answers only questions among the first forty shown, and
      brings drafts only if they were asked for. */
  lemma ErrorIff(unknown: seq<Field>, pending: seq<Pending>, outcome: Outcome)
    ensures ErrorOf(unknown, pending, outcome).None? <==>
      && outcome.Plan? && (outcome.drafts.Keys != {} ==> Common in pending)
      && forall k :: k in outcome.answers ==> exists i :: 0 <= i < |unknown| && i < MAX_MODEL_FIELDS && unknown[i].key == k
    ensures ErrorOf(unknown, pending, outcome).Some? ==>
      ErrorOf(unknown, pending, outcome).value == if outcome.Error? then outcome.code else "invalid_answer_preparation"
  {
    if outcome.Plan? {
      assert outcome.drafts == map[] <==> outcome.drafts.Keys == {} by {
        assert outcome.drafts.Keys == {} ==> forall k :: k !in outcome.drafts;
      }
    }
  }

  /** What a finished call stores for each question: the plan's answer if it has one; for any other
      pending question the reason why it has none; for an older one what was there. */
  lemma ResultEntries(cache: Cache, fields: seq<Field>, warm: bool, outcome: Outcome, key: nat)
    ensures var unknown := Unknown(fields, cache, warm); var pending := PendingOf(unknown, warm, cache);
      var r, error := ResultOf(cache, unknown, pending, outcome), ErrorOf(unknown, pending, outcome);
      && (error.None? && key in outcome.answers ==> key in r.fields && r.fields[key] == outcome.answers[key])
      && (error.None? && key !in outcome.answers && Question(key) in pending ==>
            key in r.fields && r.fields[key] == Failed("question_not_analyzed"))
      && (error.Some? && Question(key) in pending ==> key in r.fields && r.fields[key] == Failed(error.value))
      && (Question(key) !in pending ==> (key in r.fields <==> key in cache.fields) && (key in r.fields ==> r.fields[key] == cache.fields[key]))
      && (r.attempted <==> cache.attempted || warm)
  {
    var unknown := Unknown(fields, cache, warm);
    var pending := PendingOf(unknown, warm, cache);
    ResultCaches(cache, fields, warm, outcome, Question(key));
    AttemptIff(unknown, warm, cache);
    if GoodPlan(unknown, pending, outcome) {
      FailPendingEntries(cache, pending, "question_not_analyzed", key);
      AnsweredIsPending(unknown, warm, cache, outcome, key);
    } else {
      FailPendingEntries(cache, pending, ErrorOf(unknown, pending, outcome).value, key);
    }
    hide FailPending, Unknown, PendingOf, Askable;
  }

  lemma AttemptIff(unknown: seq<Field>, warm: bool, cache: Cache)
    ensures Common in PendingOf(unknown, warm, cache) <==> warm && !cache.attempted
    ensures forall k :: Question(k) in PendingOf(unknown, warm, cache) <==> exists i :: 0 <= i < |unknown| && unknown[i].key == k
  {
    var pending := PendingOf(unknown, warm, cache);
    assert warm && !cache.attempted ==> pending[|unknown|] == Common;
    forall k
      ensures Question(k) in pending <==> exists i :: 0 <= i < |unknown| && unknown[i].key == k
    {
      if i :| 0 <= i < |unknown| && unknown[i].key == k {
        assert pending[i] == Question(k);
      }
    }
  }

  lemma AnsweredIsPending(unknown: seq<Field>, warm: bool, cache: Cache, outcome: Outcome, key: nat)
    requires GoodPlan(unknown, PendingOf(unknown, warm, cache), outcome)
    ensures key in outcome.answers ==> Question(key) in PendingOf(unknown, warm, cache)
  {
    AttemptIff(unknown, warm, cache);
    hide PendingOf;
  }

  /** The same for each kind of draft. */
  lemma ResultDrafts(cache: Cache, fields: seq<Field>, warm: bool, outcome: Outcome, kind: Kind)
    ensures var unknown := Unknown(fields, cache, warm); var pending := PendingOf(unknown, warm, cache);
      var r, error := ResultOf(cache, unknown, pending, outcome), ErrorOf(unknown, pending, outcome);
      var why := if error.None? then "question_not_analyzed" else error.value;
      if error.None? && kind in outcome.drafts then kind in r.drafts && r.drafts[kind] == outcome.drafts[kind]
      else if kind in cache.drafts then kind in r.drafts && r.drafts[kind] == cache.drafts[kind]
      else if warm && !cache.attempted then kind in r.drafts && r.drafts[kind] == Failed(why)
      else kind !in r.drafts
  {
    var unknown := Unknown(fields, cache, warm);
    var pending := PendingOf(unknown, warm, cache);
    AttemptIff(unknown, warm, cache);
    FailPendingDrafts(cache, pending, "question_not_analyzed", kind);
    if !GoodPlan(unknown, pending, outcome) {
      FailPendingDrafts(cache, pending, ErrorOf(unknown, pending, outcome).value, kind);
    }
    hide FailPending, Unknown, PendingOf, Askable;
  }

  /** The fact mappings a finished call shares with the owner's other jobs. */
  function Verified(result: Cache, pending: seq<Pending>): map<nat, nat> {
    map k | k in result.fields && HasQuestion(pending, k) && result.fields[k].Mapping? :: result.fields[k].fact
  }
}
