/** Bringing one locale up to date (`syncLocale`, `loadTranslationMemory`,
    `renderTranslationMemory` in scripts/control-ui-i18n.ts). */
module SyncLocale {
  import opened Batching
  import opened Text
  import opened TranslationKeys
  import opened TranslationTree
  import opened Wrappers
  import TB = TranslateBatch

  datatype MemoryEntry = MemoryEntry(
    cacheKey: string, segmentId: string, text: string, textHash: string, translated: string,
    provider: string, model: string, locale: string, updatedAt: int)
  type Memory = map<string, MemoryEntry>

  datatype GlossaryEntry = GlossaryEntry(source: string, target: string)

  datatype Meta = Meta(
    fallbackKeys: seq<string>, generatedAt: int, locale: string, model: string, provider: string,
    sourceHash: string, totalKeys: nat, translatedKeys: int, workflow: int)

  /** A file.  `rendered` says that its text is exactly what the script prints for the value, so
      two rendered files have the same text when they have the same value. */
  datatype Doc<T> = Absent | Doc(value: T, rendered: bool)

  datatype Files = Files(
    locale: Doc<Entries>, meta: Doc<Meta>, glossary: Doc<seq<GlossaryEntry>>, memory: Doc<seq<MemoryEntry>>)

  datatype Options = Options(checkOnly: bool, force: bool, write: bool)

  /** What a run depends on besides the locale's files.  `sort` stands for `toSorted` with
      `localeCompare`, `hashText` and `cacheKey` for the SHA digests, `refuses` for what the runtime
      does not let happen to its own objects. */
  datatype Env = Env(
    source: Entries, sourceHash: string, locale: string, allowTranslate: bool, provider: string, model: string,
    defaultGlossary: seq<GlossaryEntry>, budget: nat,
    hashText: string -> string, cacheKey: (string, string) -> string, sort: set<string> -> seq<string>,
    refuses: Runtime)

  /** `Threw`: the translator failed.  `TypeError`: the runtime refused a write into its own objects. */
  datatype Outcome = Threw(message: string) | TypeError | Done(files: Files, changed: bool, fallbackCount: nat,
                                                               wrote: bool)

  const CONTROL_UI_I18N_WORKFLOW := 1

  ghost predicate IsSort(sort: set<string> -> seq<string>) {
    forall keys :: (forall k :: k in sort(keys) <==> k in keys) &&
                   (forall i, j :: 0 <= i < j < |sort(keys)| ==> sort(keys)[i] != sort(keys)[j])
  }

  /** The digests do not collide and sorting loses nothing. */
  ghost predicate ValidEnv(env: Env) {
    && IsSort(env.sort)
    && (forall key, hash :: env.cacheKey(key, hash) != "")
    && (forall key, hash, key', hash' :: env.cacheKey(key, hash) == env.cacheKey(key', hash') ==> key == key')
  }

  /** `sourceFlat`: the source's dotted keys with their texts. */
  function SourceFlat(env: Env): seq<(string, string)> {
    MapEntries(Flatten(env.source, ""))
  }

  // ----- files

  /** Later lines win; lines without a key or with a blank translation are dropped. */
  function LoadMemory(lines: seq<MemoryEntry>): Memory {
    if lines == [] then map[]
    else
      var memory, line := LoadMemory(lines[..|lines| - 1]), lines[|lines| - 1];
      if line.cacheKey != "" && !Blank(line.translated) then memory[line.cacheKey := line] else memory
  }

  function RenderMemory(memory: Memory, order: seq<string>): (lines: seq<MemoryEntry>)
    requires forall i :: 0 <= i < |order| ==> order[i] in memory
    ensures |lines| == |order|
  {
    seq(|order|, i requires 0 <= i < |order| => memory[order[i]])
  }

  /** Every entry stands under its own key and would survive loading. */
  predicate CleanMemory(memory: Memory) {
    forall k :: k in memory ==> memory[k].cacheKey == k && k != "" && !Blank(memory[k].translated)
  }

  lemma {:induction false} LoadedMemoryIsClean(lines: seq<MemoryEntry>)
    ensures CleanMemory(LoadMemory(lines))
    decreases |lines|
  {
    if lines != [] {
      LoadedMemoryIsClean(lines[..|lines| - 1]);
    }
  }

  /** The part of the memory under the given keys. */
  ghost predicate IsPart(part: Memory, memory: Memory, keys: seq<string>) {
    && (forall k :: k in part <==> k in keys)
    && (forall k :: k in part ==> k in memory && part[k] == memory[k])
  }

  lemma PartGrows(part: Memory, memory: Memory, keys: seq<string>, key: string)
    requires IsPart(part, memory, keys) && key in memory
    ensures IsPart(part[key := memory[key]], memory, keys + [key])
  {
  }

  lemma LoadNext(lines: seq<MemoryEntry>, n: nat)
    requires n < |lines| && lines[n].cacheKey != "" && !Blank(lines[n].translated)
    ensures LoadMemory(lines[..n + 1]) == LoadMemory(lines[..n])[lines[n].cacheKey := lines[n]]
  {
    assert lines[..n + 1][..n] == lines[..n];
  }

  lemma RenderedLine(memory: Memory, order: seq<string>, i: nat)
    requires CleanMemory(memory) && i < |order| && forall j :: 0 <= j < |order| ==> order[j] in memory
    ensures var line := RenderMemory(memory, order)[i];
            line == memory[order[i]] && line.cacheKey == order[i] != "" && !Blank(line.translated)
  {
  }

  lemma {:induction false} LoadRenderedPart(memory: Memory, order: seq<string>, n: nat)
    requires CleanMemory(memory) && n <= |order| && forall i :: 0 <= i < |order| ==> order[i] in memory
    ensures IsPart(LoadMemory(RenderMemory(memory, order)[..n]), memory, order[..n])
    decreases n
  {
    if n > 0 {
      LoadRenderedPart(memory, order, n - 1);
      RenderedLine(memory, order, n - 1);
      LoadNext(RenderMemory(memory, order), n - 1);
      PartGrows(LoadMemory(RenderMemory(memory, order)[..n - 1]), memory, order[..n - 1], order[n - 1]);
      assert order[..n] == order[..n - 1] + [order[n - 1]];
    }
  }

  lemma WholeIsAll(part: Memory, memory: Memory, keys: seq<string>)
    requires IsPart(part, memory, keys) && forall k :: k in memory ==> k in keys
    ensures part == memory
  {
  }

  lemma SortedIsIn(keys: set<string>, sort: set<string> -> seq<string>)
    requires IsSort(sort)
    ensures forall i :: 0 <= i < |sort(keys)| ==> sort(keys)[i] in keys
    ensures forall k :: k in keys ==> k in sort(keys)
  {
    forall i | 0 <= i < |sort(keys)|
      ensures sort(keys)[i] in keys
    {
      assert sort(keys)[i] in sort(keys);
    }
  }

  /** Writing the memory and loading it again loses nothing. */
  lemma {:induction false} LoadRendered(memory: Memory, sort: set<string> -> seq<string>)
    requires CleanMemory(memory) && IsSort(sort)
    ensures forall i :: 0 <= i < |sort(memory.Keys)| ==> sort(memory.Keys)[i] in memory
    ensures LoadMemory(RenderMemory(memory, sort(memory.Keys))) == memory
  {
    var order := sort(memory.Keys);
    SortedIsIn(memory.Keys, sort);
    LoadRenderedPart(memory, order, |order|);
    assert RenderMemory(memory, order)[..|order|] == RenderMemory(memory, order) && order[..|order|] == order;
    WholeIsAll(LoadMemory(RenderMemory(memory, order)), memory, order);
  }

  // ----- resolving one key

  datatype Start = Start(memory: Memory, existing: map<string, string>, previousFallback: set<string>)

  function ToSet(keys: seq<string>): set<string> {
    set k | k in keys
  }

  function Begin(files: Files): Start {
    Start(if files.memory.Doc? then LoadMemory(files.memory.value) else map[],
          if files.locale.Doc? then FlatMap(Flatten(files.locale.value, "")) else map[],
          if files.meta.Doc? then ToSet(files.meta.value.fallbackKeys) else {})
  }

  function SegmentKey(env: Env, key: string, text: string): string {
    env.cacheKey(key, env.hashText(text))
  }

  /** The first two tiers: the translation memory, then the existing file.  A key that fell back to
      English before is not reused when it could be translated now. */
  function Reused(env: Env, start: Start, key: string, text: string): Option<string> {
    if env.allowTranslate && key in start.previousFallback then None
    else if SegmentKey(env, key, text) in start.memory then Some(start.memory[SegmentKey(env, key, text)].translated)
    else if key in start.existing then Some(start.existing[key])
    else None
  }

  function ToItem(env: Env, key: string, text: string): Item {
    Item(SegmentKey(env, key, text), key, text, env.hashText(text))
  }

  /** The keys left for the translator, in source order. */
  function PendingOf(env: Env, start: Start, flat: seq<(string, string)>): Batch {
    if flat == [] then []
    else
      var before, (key, text) := PendingOf(env, start, flat[..|flat| - 1]), flat[|flat| - 1];
      if Reused(env, start, key, text).Some? then before else before + [ToItem(env, key, text)]
  }

  /** The third tier: the new translation, or the English text. */
  function FinalText(env: Env, start: Start, answers: map<string, string>, key: string, text: string): string {
    var reused := Reused(env, start, key, text);
    if reused.Some? then reused.value else if key in answers then answers[key] else text
  }

  predicate FallsBack(env: Env, start: Start, answers: map<string, string>, key: string, text: string) {
    if Reused(env, start, key, text).Some? then key in start.previousFallback else key !in answers
  }

  function FinalTexts(env: Env, start: Start, answers: map<string, string>,
                      flat: seq<(string, string)>): map<string, string>
  {
    if flat == [] then map[]
    else
      var (key, text) := flat[|flat| - 1];
      FinalTexts(env, start, answers, flat[..|flat| - 1])[key := FinalText(env, start, answers, key, text)]
  }

  function Fallbacks(env: Env, start: Start, answers: map<string, string>, flat: seq<(string, string)>): set<string> {
    if flat == [] then {}
    else
      var (key, text) := flat[|flat| - 1];
      Fallbacks(env, start, answers, flat[..|flat| - 1]) +
      if FallsBack(env, start, answers, key, text) then {key} else {}
  }

  function NewEntry(env: Env, item: Item, translated: string, now: int): MemoryEntry {
    MemoryEntry(item.cacheKey, item.key, item.text, item.textHash, translated, env.provider, env.model, env.locale, now)
  }

  /** The memory with the new translations added. */
  function Learned(env: Env, memory: Memory, pending: Batch, answers: map<string, string>, now: int): Memory {
    if pending == [] then memory
    else
      var before, item := Learned(env, memory, pending[..|pending| - 1], answers, now), pending[|pending| - 1];
      if item.key in answers then before[item.cacheKey := NewEntry(env, item, answers[item.key], now)] else before
  }

  // ----- the whole run

  /** What the translator returned: everything that was asked for, or nothing without a provider. */
  ghost predicate Answered(env: Env, pending: Batch, answers: map<string, string>) {
    answers.Keys == (if env.allowTranslate then TB.Keys(pending) else {}) &&
    forall key :: key in answers ==> !Blank(answers[key])
  }

  function NextMeta(env: Env, previous: Doc<Meta>, fallback: set<string>, total: nat, now: int): Meta {
    var keys := env.sort(fallback);
    var provider := if env.allowTranslate then env.provider else if previous.Doc? then previous.value.provider else "";
    var model := if env.allowTranslate then env.model else if previous.Doc? then previous.value.model else "";
    var meta := Meta(keys, now, env.locale, model, provider, env.sourceHash, total, total - |keys|,
                     CONTROL_UI_I18N_WORKFLOW);
    if previous.Doc? && previous.value == meta.(generatedAt := previous.value.generatedAt) then previous.value else meta
  }

  /** The files as the run would have them. */
  ghost function Expected(env: Env, files: Files, answers: map<string, string>, now: int): Files
    requires ValidEnv(env) && Answered(env, PendingOf(env, Begin(files), SourceFlat(env)), answers)
  {
    var start, flat := Begin(files), SourceFlat(env);
    var memory := Learned(env, start.memory, PendingOf(env, start, flat), answers, now);
    var glossary := if files.glossary.Doc? then files.glossary.value else [];
    LearnedIsClean(env, files, answers, now);
    LoadRendered(memory, env.sort);
    Files(Doc(Rebuild(RelabelList(flat, FinalTexts(env, start, answers, flat)), []), true),
          Doc(NextMeta(env, files.meta, Fallbacks(env, start, answers, flat), |flat|, now), true),
          Doc(if glossary == [] then env.defaultGlossary else glossary, true),
          Doc(RenderMemory(memory, env.sort(memory.Keys)), true))
  }

  /** Whether a file differs in text from the expected one; a missing memory reads as empty. */
  predicate Differs(files: Files, expected: Files) {
    files.locale != expected.locale || files.meta != expected.meta || files.glossary != expected.glossary ||
    (if files.memory.Absent? then expected.memory != Doc([], true) else files.memory != expected.memory)
  }

  /** The files after writing; an empty memory is not created. */
  function Written(files: Files, expected: Files): Files {
    if files.memory.Absent? && expected.memory == Doc([], true) then expected.(memory := Absent) else expected
  }

  /** A run that gets to its end. */
  ghost function Completed(env: Env, files: Files, options: Options, answers: map<string, string>,
                           now: int): (outcome: Outcome)
    requires ValidEnv(env) && Answered(env, PendingOf(env, Begin(files), SourceFlat(env)), answers)
    ensures outcome.Done?
  {
    var expected := Expected(env, files, answers, now);
    var changed := Differs(files, expected);
    var wrote := changed && options.write && !options.checkOnly;
    Done(if wrote then Written(files, expected) else files, changed, |expected.meta.value.fallbackKeys|, wrote)
  }

  /** Whether building the nested map throws; the texts have no part in that. */
  predicate Throws(env: Env) {
    RebuildThrows(SourceFlat(env), [], env.refuses)
  }

  ghost function Sync(env: Env, files: Files, options: Options, answers: map<string, string>, now: int): Outcome
    requires ValidEnv(env) && Answered(env, PendingOf(env, Begin(files), SourceFlat(env)), answers)
  {
    if Throws(env) then TypeError else Completed(env, files, options, answers, now)
  }

  // ----- what one run establishes

  lemma {:induction false} LearnedKeepsClean(env: Env, memory: Memory, pending: Batch,
                                             answers: map<string, string>, now: int)
    requires ValidEnv(env) && CleanMemory(memory)
    requires forall i :: 0 <= i < |pending| ==> pending[i].cacheKey != ""
    requires forall key :: key in answers ==> !Blank(answers[key])
    ensures CleanMemory(Learned(env, memory, pending, answers, now))
    decreases |pending|
  {
    if pending != [] {
      LearnedKeepsClean(env, memory, pending[..|pending| - 1], answers, now);
    }
  }

  lemma {:induction false} PendingIs(env: Env, start: Start, flat: seq<(string, string)>)
    ensures forall item :: item in PendingOf(env, start, flat) <==>
                           exists i :: 0 <= i < |flat| && Reused(env, start, flat[i].0, flat[i].1).None? &&
                                       item == ToItem(env, flat[i].0, flat[i].1)
    decreases |flat|
  {
    if flat != [] {
      var init := flat[..|flat| - 1];
      PendingIs(env, start, init);
      assert forall i :: 0 <= i < |init| ==> init[i] == flat[i];
    }
  }

  lemma LearnedIsClean(env: Env, files: Files, answers: map<string, string>, now: int)
    requires ValidEnv(env) && Answered(env, PendingOf(env, Begin(files), SourceFlat(env)), answers)
    ensures CleanMemory(Learned(env, Begin(files).memory, PendingOf(env, Begin(files), SourceFlat(env)), answers, now))
  {
    var start, flat := Begin(files), SourceFlat(env);
    var pending := PendingOf(env, start, flat);
    if files.memory.Doc? {
      LoadedMemoryIsClean(files.memory.value);
    }
    PendingIs(env, start, flat);
    forall i | 0 <= i < |pending|
      ensures pending[i].cacheKey != ""
    {
      assert pending[i] in pending;
    }
    LearnedKeepsClean(env, start.memory, pending, answers, now);
  }

  /** What the memory holds after the run under a key: the new translation if there is one, the old
      entry otherwise. */
  lemma {:induction false} LearnedAt(env: Env, memory: Memory, pending: Batch, answers: map<string, string>, now: int,
                                     id: string)
    ensures var learned := Learned(env, memory, pending, answers, now);
            if exists item :: item in pending && item.cacheKey == id && item.key in answers then
              id in learned && exists item :: item in pending && item.cacheKey == id && item.key in answers &&
                                              learned[id] == NewEntry(env, item, answers[item.key], now)
            else (id in learned <==> id in memory) && (id in memory ==> learned[id] == memory[id])
    decreases |pending|
  {
    if pending != [] {
      var init, last := pending[..|pending| - 1], pending[|pending| - 1];
      LearnedAt(env, memory, init, answers, now, id);
      assert forall item :: item in pending <==> item in init || item == last;
    }
  }

  lemma {:induction false} FinalTextsAt(env: Env, start: Start, answers: map<string, string>,
                                        flat: seq<(string, string)>, i: nat)
    requires i < |flat| && forall j, k :: 0 <= j < k < |flat| ==> flat[j].0 != flat[k].0
    ensures flat[i].0 in FinalTexts(env, start, answers, flat)
    ensures FinalTexts(env, start, answers, flat)[flat[i].0] == FinalText(env, start, answers, flat[i].0, flat[i].1)
    decreases |flat|
  {
    if i < |flat| - 1 {
      FinalTextsAt(env, start, answers, flat[..|flat| - 1], i);
    }
  }

  lemma {:induction false} FallbacksAre(env: Env, start: Start, answers: map<string, string>,
                                        flat: seq<(string, string)>)
    ensures forall key :: key in Fallbacks(env, start, answers, flat) <==>
                          exists i :: 0 <= i < |flat| && flat[i].0 == key &&
                                      FallsBack(env, start, answers, key, flat[i].1)
    decreases |flat|
  {
    if flat != [] {
      var init := flat[..|flat| - 1];
      FallbacksAre(env, start, answers, init);
      assert forall i :: 0 <= i < |init| ==> init[i] == flat[i];
    }
  }

  lemma {:induction false} FlatMapOf(list: seq<(string, string)>, i: nat)
    requires i < |list| && forall j, k :: 0 <= j < k < |list| ==> list[j].0 != list[k].0
    ensures list[i].0 in FlatMap(list) && FlatMap(list)[list[i].0] == list[i].1
    decreases |list|
  {
    if i < |list| - 1 {
      FlatMapOf(list[..|list| - 1], i);
    }
  }

  /** The keys stay separate whatever their texts. */
  lemma RelabelledIsSeparate(flat: seq<(string, string)>, texts: map<string, string>)
    requires DistinctPairs(flat)
    ensures DistinctPairs(RelabelList(flat, texts)) && (Separate(flat) <==> Separate(RelabelList(flat, texts)))
  {
    var list := RelabelList(flat, texts);
    assert forall i :: 0 <= i < |flat| ==> list[i].0 == flat[i].0;
    assert forall i :: 0 <= i < |flat| ==> flat[i].0 == list[i].0;
  }

  lemma FinalListAt(env: Env, start: Start, answers: map<string, string>, flat: seq<(string, string)>, i: nat)
    requires DistinctPairs(flat) && i < |flat|
    ensures RelabelList(flat, FinalTexts(env, start, answers, flat))[i] ==
            (flat[i].0, FinalText(env, start, answers, flat[i].0, flat[i].1))
  {
    FinalTextsAt(env, start, answers, flat, i);
  }

  /** The generated locale has exactly the source's keys, each with the text that the three tiers
      give it. */
  lemma LocaleHasSourceKeys(env: Env, files: Files, answers: map<string, string>, now: int, key: string, text: string)
    requires ValidEnv(env) && Separate(SourceFlat(env)) &&
             Answered(env, PendingOf(env, Begin(files), SourceFlat(env)), answers)
    ensures (key, text) in Flatten(Expected(env, files, answers, now).locale.value, "") <==>
            exists i :: 0 <= i < |SourceFlat(env)| && SourceFlat(env)[i].0 == key &&
                        text == FinalText(env, Begin(files), answers, key, SourceFlat(env)[i].1)
  {
    MapEntriesAre(Flatten(env.source, ""));
    RebuiltHasFinalTexts(env, Begin(files), answers, SourceFlat(env), key, text);
  }

  lemma RebuiltHasFinalTexts(env: Env, start: Start, answers: map<string, string>, flat: seq<(string, string)>,
                             key: string, text: string)
    requires DistinctPairs(flat) && Separate(flat)
    ensures (key, text) in Flatten(Rebuild(RelabelList(flat, FinalTexts(env, start, answers, flat)), []), "") <==>
            exists i :: 0 <= i < |flat| && flat[i].0 == key && text == FinalText(env, start, answers, key, flat[i].1)
  {
    var list := RelabelList(flat, FinalTexts(env, start, answers, flat));
    RelabelledIsSeparate(flat, FinalTexts(env, start, answers, flat));
    SeparateSurvives(list);
    if (key, text) in list {
      var i :| 0 <= i < |list| && list[i] == (key, text);
      FinalListAt(env, start, answers, flat, i);
    }
    if i :| 0 <= i < |flat| && flat[i].0 == key && text == FinalText(env, start, answers, key, flat[i].1) {
      FinalListAt(env, start, answers, flat, i);
      assert list[i] == (key, text);
    }
  }

  /** A source whose nested maps follow its dotted keys has them in the locale in the same order. */
  lemma LocaleKeepsOrder(env: Env, files: Files, answers: map<string, string>, now: int)
    requires WellKeyed(env.source) && NoNamelessMap(env.source) && NoInheritedMap(env.source)
    requires ValidEnv(env) && Answered(env, PendingOf(env, Begin(files), SourceFlat(env)), answers)
    ensures SourceFlat(env) == Flatten(env.source, "")
    ensures var flat, locale := SourceFlat(env), Flatten(Expected(env, files, answers, now).locale.value, "");
            && |locale| == |flat|
            && forall i :: 0 <= i < |flat| ==>
                             locale[i] == (flat[i].0, FinalText(env, Begin(files), answers, flat[i].0, flat[i].1))
  {
    var start, flat := Begin(files), Flatten(env.source, "");
    FlattenKeysAreDistinct(env.source);
    MapEntriesOfDistinct(flat);
    RebuildRelabelled(env.source, FinalTexts(env, start, answers, flat));
    forall i | 0 <= i < |flat|
      ensures RelabelList(flat, FinalTexts(env, start, answers, flat))[i] ==
              (flat[i].0, FinalText(env, start, answers, flat[i].0, flat[i].1))
    {
      FinalListAt(env, start, answers, flat, i);
    }
  }

  // ----- a second run finds nothing to do

  /** The files that a writing run leaves behind are the expected ones. */
  ghost predicate AsExpected(files: Files, expected: Files) {
    files.locale == expected.locale && files.meta == expected.meta && files.glossary == expected.glossary &&
    (files.memory == expected.memory || (files.memory.Absent? && expected.memory == Doc([], true)))
  }

  lemma FilesAfter(env: Env, files: Files, options: Options, answers: map<string, string>, now: int)
    requires ValidEnv(env) && Answered(env, PendingOf(env, Begin(files), SourceFlat(env)), answers)
    requires options.write && !options.checkOnly
    ensures AsExpected(Completed(env, files, options, answers, now).files, Expected(env, files, answers, now))
  {
  }

  /** What the next run loads from those files. */
  lemma BeginAfter(env: Env, files: Files, options: Options, answers: map<string, string>, now: int)
    returns (after: Start)
    requires ValidEnv(env) && Separate(SourceFlat(env)) &&
             Answered(env, PendingOf(env, Begin(files), SourceFlat(env)), answers)
    requires options.write && !options.checkOnly
    ensures var start, flat := Begin(files), SourceFlat(env);
            && after == Begin(Completed(env, files, options, answers, now).files)
            && after.memory == Learned(env, start.memory, PendingOf(env, start, flat), answers, now)
            && after.existing == FlatMap(RelabelList(flat, FinalTexts(env, start, answers, flat)))
            && after.previousFallback == Fallbacks(env, start, answers, flat)
  {
    FilesAfter(env, files, options, answers, now);
    LoadExpected(env, files, answers, now, Completed(env, files, options, answers, now).files);
    after := Begin(Completed(env, files, options, answers, now).files);
  }

  /** What is loaded back from a locale file made of separate keys. */
  lemma ExistingAfter(flat: seq<(string, string)>, texts: map<string, string>)
    requires Separate(flat) && DistinctPairs(flat)
    ensures FlatMap(Flatten(Rebuild(RelabelList(flat, texts), []), "")) == FlatMap(RelabelList(flat, texts))
  {
    var list := RelabelList(flat, texts);
    RelabelledIsSeparate(flat, texts);
    SeparateSurvives(list);
    SamePairsSameMap(Flatten(Rebuild(list, []), ""), list);
  }

  lemma LoadExpected(env: Env, files: Files, answers: map<string, string>, now: int, files': Files)
    requires ValidEnv(env) && Separate(SourceFlat(env)) &&
             Answered(env, PendingOf(env, Begin(files), SourceFlat(env)), answers)
    requires AsExpected(files', Expected(env, files, answers, now))
    ensures var start, flat, after := Begin(files), SourceFlat(env), Begin(files');
            && after.memory == Learned(env, start.memory, PendingOf(env, start, flat), answers, now)
            && after.existing == FlatMap(RelabelList(flat, FinalTexts(env, start, answers, flat)))
            && after.previousFallback == Fallbacks(env, start, answers, flat)
  {
    var start, flat := Begin(files), SourceFlat(env);
    MapEntriesAre(Flatten(env.source, ""));
    LoadLearned(env, files, answers, now, files'.memory);
    ExistingAfter(flat, FinalTexts(env, start, answers, flat));
    SortedToSet(env.sort, Fallbacks(env, start, answers, flat));
  }

  lemma SortedToSet(sort: set<string> -> seq<string>, keys: set<string>)
    requires IsSort(sort)
    ensures ToSet(sort(keys)) == keys
  {
  }

  /** The memory is loaded back as it was when it was written, or was empty and is not there. */
  lemma LoadLearned(env: Env, files: Files, answers: map<string, string>, now: int, memory': Doc<seq<MemoryEntry>>)
    requires ValidEnv(env) && Answered(env, PendingOf(env, Begin(files), SourceFlat(env)), answers)
    requires var expected := Expected(env, files, answers, now).memory;
             memory' == expected || (memory'.Absent? && expected == Doc([], true))
    ensures (if memory'.Doc? then LoadMemory(memory'.value) else map[]) ==
            Learned(env, Begin(files).memory, PendingOf(env, Begin(files), SourceFlat(env)), answers, now)
  {
    LearnedIsClean(env, files, answers, now);
    var pending := PendingOf(env, Begin(files), SourceFlat(env));
    LoadRendered(Learned(env, Begin(files).memory, pending, answers, now), env.sort);
    assert LoadMemory([]) == map[];
  }

  /** What a run leaves in the memory under a key's digest: the translation that it got for the key,
      or what was there before. */
  lemma LearnedForKey(env: Env, start: Start, answers: map<string, string>, now: int,
                      flat: seq<(string, string)>, i: nat)
    requires ValidEnv(env) && DistinctPairs(flat) && i < |flat| && answers.Keys <= TB.Keys(PendingOf(env, start, flat))
    ensures var learned := Learned(env, start.memory, PendingOf(env, start, flat), answers, now);
            var (key, id) := (flat[i].0, SegmentKey(env, flat[i].0, flat[i].1));
            if key in answers then id in learned && learned[id].translated == answers[key]
            else (id in learned <==> id in start.memory) && (id in learned ==> learned[id] == start.memory[id])
  {
    var (key, text) := flat[i];
    var pending, id := PendingOf(env, start, flat), SegmentKey(env, key, text);
    LearnedAt(env, start.memory, pending, answers, now, id);
    PendingIs(env, start, flat);
    PendingKeys(env, start, flat);
    forall item | item in pending && item.cacheKey == id
      ensures item.key == key
    {
    }
    if key in answers {
      assert ToItem(env, key, text) in pending;
    }
  }

  /** One key in the second run: it is reused, with the text of the first run, and falls back
      exactly if it fell back before. */
  lemma SecondRunReuses(env: Env, files: Files, options: Options, answers: map<string, string>, now: int, i: nat)
    requires ValidEnv(env) && Separate(SourceFlat(env)) &&
             Answered(env, PendingOf(env, Begin(files), SourceFlat(env)), answers)
    requires options.write && !options.checkOnly && i < |SourceFlat(env)|
    ensures var (key, text) := SourceFlat(env)[i];
            var start, after := Begin(files), Begin(Completed(env, files, options, answers, now).files);
            && Reused(env, after, key, text) == Some(FinalText(env, start, answers, key, text))
            && (FallsBack(env, after, map[], key, text) <==> FallsBack(env, start, answers, key, text))
  {
    var after := BeginAfter(env, files, options, answers, now);
    MapEntriesAre(Flatten(env.source, ""));
    KeyAfter(env, Begin(files), answers, now, SourceFlat(env), after, i);
  }

  /** The same for any state that a run leaves behind. */
  lemma KeyAfter(env: Env, start: Start, answers: map<string, string>, now: int, flat: seq<(string, string)>,
                 after: Start, i: nat)
    requires ValidEnv(env) && DistinctPairs(flat) && i < |flat| && Answered(env, PendingOf(env, start, flat), answers)
    requires after.memory == Learned(env, start.memory, PendingOf(env, start, flat), answers, now)
    requires after.existing == FlatMap(RelabelList(flat, FinalTexts(env, start, answers, flat)))
    requires after.previousFallback == Fallbacks(env, start, answers, flat)
    ensures var (key, text) := flat[i];
            && Reused(env, after, key, text) == Some(FinalText(env, start, answers, key, text))
            && (FallsBack(env, after, map[], key, text) <==> FallsBack(env, start, answers, key, text))
  {
    var (key, text) := flat[i];
    LearnedForKey(env, start, answers, now, flat, i);
    FinalListAt(env, start, answers, flat, i);
    FlatMapOf(RelabelList(flat, FinalTexts(env, start, answers, flat)), i);
    assert after.existing[key] == FinalText(env, start, answers, key, text);
    FallbackAt(env, start, answers, flat, i);
    PendingKeys(env, start, flat);
    if env.allowTranslate {
      NothingFallsBack(env, start, answers, flat);
    }
  }

  lemma FallbackAt(env: Env, start: Start, answers: map<string, string>, flat: seq<(string, string)>, i: nat)
    requires DistinctPairs(flat) && i < |flat|
    ensures flat[i].0 in Fallbacks(env, start, answers, flat) <==> FallsBack(env, start, answers, flat[i].0, flat[i].1)
  {
    FallbacksAre(env, start, answers, flat);
  }

  lemma PendingKeys(env: Env, start: Start, flat: seq<(string, string)>)
    requires forall i, j :: 0 <= i < j < |flat| ==> flat[i].0 != flat[j].0
    ensures forall i :: 0 <= i < |flat| ==>
                          (flat[i].0 in TB.Keys(PendingOf(env, start, flat)) <==>
                           Reused(env, start, flat[i].0, flat[i].1).None?)
  {
    PendingIs(env, start, flat);
    var pending := PendingOf(env, start, flat);
    forall i | 0 <= i < |flat|
      ensures flat[i].0 in TB.Keys(pending) <==> Reused(env, start, flat[i].0, flat[i].1).None?
    {
      if flat[i].0 in TB.Keys(pending) {
        var j :| 0 <= j < |pending| && pending[j].key == flat[i].0;
        assert pending[j] in pending;
      }
      if Reused(env, start, flat[i].0, flat[i].1).None? {
        assert ToItem(env, flat[i].0, flat[i].1) in pending;
      }
    }
  }

  /** With a provider no key is left in English. */
  lemma NothingFallsBack(env: Env, start: Start, answers: map<string, string>, flat: seq<(string, string)>)
    requires env.allowTranslate && Answered(env, PendingOf(env, start, flat), answers)
    requires forall i, j :: 0 <= i < j < |flat| ==> flat[i].0 != flat[j].0
    ensures Fallbacks(env, start, answers, flat) == {}
  {
    FallbacksAre(env, start, answers, flat);
    PendingKeys(env, start, flat);
    forall i | 0 <= i < |flat|
      ensures !FallsBack(env, start, answers, flat[i].0, flat[i].1)
    {
    }
  }

  lemma {:induction false} NothingPending(env: Env, start: Start, flat: seq<(string, string)>)
    requires forall i :: 0 <= i < |flat| ==> Reused(env, start, flat[i].0, flat[i].1).Some?
    ensures PendingOf(env, start, flat) == []
    decreases |flat|
  {
    if flat != [] {
      NothingPending(env, start, flat[..|flat| - 1]);
    }
  }

  lemma {:induction false} SameFinalTexts(env: Env, start: Start, answers: map<string, string>, start': Start,
                                          answers': map<string, string>, flat: seq<(string, string)>)
    requires forall i :: 0 <= i < |flat| ==>
                           FinalText(env, start', answers', flat[i].0, flat[i].1) ==
                           FinalText(env, start, answers, flat[i].0, flat[i].1)
    requires forall i :: 0 <= i < |flat| ==>
                           (FallsBack(env, start', answers', flat[i].0, flat[i].1) <==>
                            FallsBack(env, start, answers, flat[i].0, flat[i].1))
    ensures FinalTexts(env, start', answers', flat) == FinalTexts(env, start, answers, flat)
    ensures Fallbacks(env, start', answers', flat) == Fallbacks(env, start, answers, flat)
    decreases |flat|
  {
    if flat != [] {
      var init := flat[..|flat| - 1];
      assert forall i :: 0 <= i < |init| ==> init[i] == flat[i];
      SameFinalTexts(env, start, answers, start', answers', init);
    }
  }

  /** After `sync --write`, whether keys were translated or fell back to English, the next run (a
      sync or a check, at any later time) sends nothing to the translator, finds every file as it
      should be, and writes nothing. */
  lemma SecondSyncIsClean(env: Env, files: Files, options: Options, answers: map<string, string>, now: int,
                          options': Options, now': int)
    requires ValidEnv(env) && Separate(SourceFlat(env)) &&
             Answered(env, PendingOf(env, Begin(files), SourceFlat(env)), answers)
    requires options.write && !options.checkOnly
    ensures var first := Sync(env, files, options, answers, now);
            && first.Done?
            && PendingOf(env, Begin(first.files), SourceFlat(env)) == []
            && Sync(env, first.files, options', map[], now') == Done(first.files, false, first.fallbackCount, false)
  {
    SeparateNeverThrows(SourceFlat(env), [], env.refuses);
    SecondRunIsSame(env, files, options, answers, now);
    assert TB.Keys([]) == {};
    FilesAfter(env, files, options, answers, now);
    SameExpected(env, files, answers, now, Completed(env, files, options, answers, now).files, now');
  }

  /** All keys in the second run. */
  lemma SecondRunIsSame(env: Env, files: Files, options: Options, answers: map<string, string>, now: int)
    requires ValidEnv(env) && Separate(SourceFlat(env)) &&
             Answered(env, PendingOf(env, Begin(files), SourceFlat(env)), answers)
    requires options.write && !options.checkOnly
    ensures var start, after, flat :=
              Begin(files), Begin(Completed(env, files, options, answers, now).files), SourceFlat(env);
            && PendingOf(env, after, flat) == []
            && FinalTexts(env, after, map[], flat) == FinalTexts(env, start, answers, flat)
            && Fallbacks(env, after, map[], flat) == Fallbacks(env, start, answers, flat)
  {
    var start, flat := Begin(files), SourceFlat(env);
    var after := Begin(Completed(env, files, options, answers, now).files);
    forall i | 0 <= i < |flat|
      ensures Reused(env, after, flat[i].0, flat[i].1) == Some(FinalText(env, start, answers, flat[i].0, flat[i].1))
      ensures FallsBack(env, after, map[], flat[i].0, flat[i].1) <==>
              FallsBack(env, start, answers, flat[i].0, flat[i].1)
    {
      SecondRunReuses(env, files, options, answers, now, i);
    }
    NothingPending(env, after, flat);
    SameFinalTexts(env, start, answers, after, map[], flat);
  }

  lemma SameExpected(env: Env, files: Files, answers: map<string, string>, now: int, files': Files, now': int)
    requires ValidEnv(env) && Separate(SourceFlat(env)) &&
             Answered(env, PendingOf(env, Begin(files), SourceFlat(env)), answers)
    requires Answered(env, PendingOf(env, Begin(files'), SourceFlat(env)), map[])
    requires AsExpected(files', Expected(env, files, answers, now))
    requires PendingOf(env, Begin(files'), SourceFlat(env)) == []
    requires var start, after, flat := Begin(files), Begin(files'), SourceFlat(env);
             FinalTexts(env, after, map[], flat) == FinalTexts(env, start, answers, flat) &&
             Fallbacks(env, after, map[], flat) == Fallbacks(env, start, answers, flat)
    ensures Expected(env, files', map[], now') == Expected(env, files, answers, now)
  {
    LoadExpected(env, files, answers, now, files');
    var start, after, flat := Begin(files), Begin(files'), SourceFlat(env);
    assert Learned(env, after.memory, [], map[], now') == after.memory;
    MetaStays(env, files.meta, Fallbacks(env, start, answers, flat), |flat|, now, now');
    SameMemory(env, files, answers, now, files', now');
  }

  lemma SameMemory(env: Env, files: Files, answers: map<string, string>, now: int, files': Files, now': int)
    requires ValidEnv(env) && Answered(env, PendingOf(env, Begin(files), SourceFlat(env)), answers)
    requires Answered(env, PendingOf(env, Begin(files'), SourceFlat(env)), map[]) &&
             PendingOf(env, Begin(files'), SourceFlat(env)) == []
    requires Begin(files').memory ==
             Learned(env, Begin(files).memory, PendingOf(env, Begin(files), SourceFlat(env)), answers, now)
    ensures Expected(env, files', map[], now').memory == Expected(env, files, answers, now).memory
  {
  }

  /** Metadata that a run wrote are kept by the next one. */
  lemma MetaStays(env: Env, previous: Doc<Meta>, fallback: set<string>, total: nat, now: int, now': int)
    ensures var meta := NextMeta(env, previous, fallback, total, now);
            NextMeta(env, Doc(meta, true), fallback, total, now') == meta
  {
  }

  // ----- what a run leaves in the files

  /** The metadata of a run: what it ran for, how many keys there are and how many are in English, and
      who translated.  Without a provider the previous one stays; the time stays when nothing else
      has changed. */
  lemma WhatMetaHolds(env: Env, previous: Doc<Meta>, fallback: set<string>, total: nat, now: int)
    requires IsSort(env.sort)
    ensures var meta := NextMeta(env, previous, fallback, total, now);
            && meta.locale == env.locale && meta.sourceHash == env.sourceHash && meta.workflow == 1
            && meta.totalKeys == total && meta.translatedKeys + |meta.fallbackKeys| == total
            && (forall key :: key in meta.fallbackKeys <==> key in fallback)
            && (env.allowTranslate ==> meta.provider == env.provider && meta.model == env.model)
            && (!env.allowTranslate && previous.Doc? ==>
                  meta.provider == previous.value.provider && meta.model == previous.value.model)
            && (!env.allowTranslate && previous.Absent? ==> meta.provider == "" && meta.model == "")
            && (meta.generatedAt == now || (previous.Doc? && meta == previous.value))
            && (previous.Doc? && meta.(generatedAt := previous.value.generatedAt) == previous.value ==>
                  meta == previous.value)
  {
  }

  /** What a writing run that gets to its end leaves behind: metadata as above with the source's keys
      counted, and the glossary that was there unless it was empty. */
  lemma WhatRunLeaves(env: Env, files: Files, options: Options, answers: map<string, string>, now: int)
    requires ValidEnv(env) && Answered(env, PendingOf(env, Begin(files), SourceFlat(env)), answers)
    requires options.write && !options.checkOnly && !Throws(env)
    ensures var outcome := Sync(env, files, options, answers, now);
            && outcome.Done? && outcome.files.meta.Doc? && outcome.files.glossary.Doc? && outcome.files.locale.Doc?
            && var meta := outcome.files.meta.value;
            && meta.locale == env.locale && meta.sourceHash == env.sourceHash
            && meta.totalKeys == |SourceFlat(env)| && meta.translatedKeys + |meta.fallbackKeys| == meta.totalKeys
            && outcome.fallbackCount == |meta.fallbackKeys|
            && (env.allowTranslate ==>
                  meta.provider == env.provider && meta.model == env.model && meta.fallbackKeys == [])
            && (!env.allowTranslate && files.meta.Doc? ==>
                  meta.provider == files.meta.value.provider && meta.model == files.meta.value.model)
            && (if files.glossary.Doc? && files.glossary.value != [] then
                  outcome.files.glossary.value == files.glossary.value
                else outcome.files.glossary.value == env.defaultGlossary)
  {
    var start, flat := Begin(files), SourceFlat(env);
    FilesAfter(env, files, options, answers, now);
    WhatMetaHolds(env, files.meta, Fallbacks(env, start, answers, flat), |flat|, now);
    if env.allowTranslate {
      MapEntriesAre(Flatten(env.source, ""));
      NothingFallsBack(env, start, answers, flat);
      NothingToSort(env.sort);
    }
  }

  /** A run reports a change exactly when some file is not as it should be, writes only then and only
      if it was told to, and otherwise leaves every file alone. */
  lemma ChangedExactly(env: Env, files: Files, options: Options, answers: map<string, string>, now: int)
    requires ValidEnv(env) && Answered(env, PendingOf(env, Begin(files), SourceFlat(env)), answers) && !Throws(env)
    ensures var outcome := Sync(env, files, options, answers, now);
            && outcome.Done?
            && (outcome.changed <==> !AsExpected(files, Expected(env, files, answers, now)))
            && (outcome.wrote <==> outcome.changed && options.write && !options.checkOnly)
            && (if outcome.wrote then AsExpected(outcome.files, Expected(env, files, answers, now))
                else outcome.files == files)
  {
  }

  /** What the translation memory holds after a writing run: for every key that was translated now the
      translation with all that is known of it, and under every other key what it held before. */
  lemma WhatMemoryHolds(env: Env, files: Files, options: Options, answers: map<string, string>, now: int, i: nat)
    requires ValidEnv(env) && Answered(env, PendingOf(env, Begin(files), SourceFlat(env)), answers)
    requires options.write && !options.checkOnly && !Throws(env) && i < |SourceFlat(env)|
    ensures var (key, text) := SourceFlat(env)[i];
            var id := env.cacheKey(key, env.hashText(text));
            var before, after := Begin(files).memory, Begin(Sync(env, files, options, answers, now).files).memory;
            if key in answers then
              && id in after
              && after[id] == MemoryEntry(id, key, text, env.hashText(text), answers[key], env.provider, env.model,
                                          env.locale, now)
            else (id in after <==> id in before) && (id in before ==> after[id] == before[id])
  {
    var flat, files' := SourceFlat(env), Sync(env, files, options, answers, now).files;
    MapEntriesAre(Flatten(env.source, ""));
    FilesAfter(env, files, options, answers, now);
    LoadLearned(env, files, answers, now, files'.memory);
    RememberedForKey(env, Begin(files), answers, now, flat, i);
  }

  lemma {:induction false} RememberedForKey(env: Env, start: Start, answers: map<string, string>, now: int,
                                            flat: seq<(string, string)>, i: nat)
    requires ValidEnv(env) && DistinctPairs(flat) && i < |flat| && Answered(env, PendingOf(env, start, flat), answers)
    ensures var learned := Learned(env, start.memory, PendingOf(env, start, flat), answers, now);
            var (key, text) := flat[i];
            var id := SegmentKey(env, key, text);
            if key in answers then
              id in learned && learned[id] == NewEntry(env, ToItem(env, key, text), answers[key], now)
            else (id in learned <==> id in start.memory) && (id in learned ==> learned[id] == start.memory[id])
  {
    var (key, text) := flat[i];
    LearnedForKey(env, start, answers, now, flat, i);
    if key in answers {
      OwnItemPending(env, start, flat, i, answers);
      OwnEntry(env, start.memory, PendingOf(env, start, flat), answers, now, ToItem(env, key, text));
    }
  }

  lemma {:induction false} OwnItemPending(env: Env, start: Start, flat: seq<(string, string)>, i: nat,
                                          answers: map<string, string>)
    requires ValidEnv(env) && DistinctPairs(flat) && i < |flat| && Answered(env, PendingOf(env, start, flat), answers)
    requires flat[i].0 in answers
    ensures var item := ToItem(env, flat[i].0, flat[i].1);
            item in PendingOf(env, start, flat) && IsOnlyItem(PendingOf(env, start, flat), item)
  {
    PendingIs(env, start, flat);
    PendingKeys(env, start, flat);
    var item := ToItem(env, flat[i].0, flat[i].1);
    assert Reused(env, start, flat[i].0, flat[i].1).None?;
    forall other | other in PendingOf(env, start, flat) && other.cacheKey == item.cacheKey
      ensures other == item
    {
      var j :| 0 <= j < |flat| && Reused(env, start, flat[j].0, flat[j].1).None? &&
               other == ToItem(env, flat[j].0, flat[j].1);
      SameDigestSameKey(env, flat[j].0, flat[j].1, flat[i].0, flat[i].1);
    }
  }

  lemma SameDigestSameKey(env: Env, key: string, text: string, key': string, text': string)
    requires ValidEnv(env) && SegmentKey(env, key, text) == SegmentKey(env, key', text')
    ensures key == key'
  {
    assert env.cacheKey(key, env.hashText(text)) == env.cacheKey(key', env.hashText(text'));
  }

  ghost predicate IsOnlyItem(pending: Batch, item: Item) {
    forall other :: other in pending && other.cacheKey == item.cacheKey ==> other == item
  }

  lemma {:induction false} OwnEntry(env: Env, memory: Memory, pending: Batch, answers: map<string, string>, now: int,
                                    item: Item)
    requires item in pending && item.key in answers && IsOnlyItem(pending, item)
    ensures var learned := Learned(env, memory, pending, answers, now);
            item.cacheKey in learned && learned[item.cacheKey] == NewEntry(env, item, answers[item.key], now)
  {
    LearnedAt(env, memory, pending, answers, now, item.cacheKey);
  }

  /** The text that a file has for a key, the last one if it stands there twice. */
  ghost predicate HasText(file: Doc<Entries>, key: string, text: string) {
    file.Doc? && key in FlatMap(Flatten(file.value, "")) && FlatMap(Flatten(file.value, ""))[key] == text
  }

  /** The memory file remembers a translation of the text. */
  ghost predicate Remembers(env: Env, file: Doc<seq<MemoryEntry>>, key: string, text: string, translated: string) {
    var id := env.cacheKey(key, env.hashText(text));
    file.Doc? && id in LoadMemory(file.value) && LoadMemory(file.value)[id].translated == translated
  }

  /** A key that fell back to English before, in a run that can translate it. */
  predicate IsRefreshed(env: Env, files: Files, key: string) {
    env.allowTranslate && files.meta.Doc? && key in files.meta.value.fallbackKeys
  }

  /** The tiers in their order: the memory comes first, then the existing file, then the translator,
      and English last; the first two do not count for a key that is refreshed. */
  lemma {:induction false} TiersInOrder(env: Env, files: Files, answers: map<string, string>, now: int, i: nat)
    requires ValidEnv(env) && Separate(SourceFlat(env)) && i < |SourceFlat(env)|
    requires Answered(env, PendingOf(env, Begin(files), SourceFlat(env)), answers)
    ensures var (key, text) := SourceFlat(env)[i];
            var refreshed, locale := IsRefreshed(env, files, key), Expected(env, files, answers, now).locale;
            var remembered := !refreshed && exists translated :: Remembers(env, files.memory, key, text, translated);
            var existing := !refreshed && exists was :: HasText(files.locale, key, was);
            && (forall translated :: !refreshed && Remembers(env, files.memory, key, text, translated) ==>
                                       HasText(locale, key, translated))
            && (forall was :: !remembered && !refreshed && HasText(files.locale, key, was) ==>
                                HasText(locale, key, was))
            && (!remembered && !existing ==>
                  && (key in answers <==> env.allowTranslate)
                  && HasText(locale, key, if env.allowTranslate then answers[key] else text))
  {
    var (key, text) := SourceFlat(env)[i];
    FinalTextStands(env, files, answers, now, i);
    TierOf(env, files, key, text);
    AnsweredIfPending(env, files, answers, i);
  }

  lemma {:induction false} AnsweredIfPending(env: Env, files: Files, answers: map<string, string>, i: nat)
    requires i < |SourceFlat(env)| && Answered(env, PendingOf(env, Begin(files), SourceFlat(env)), answers)
    ensures var (key, text) := SourceFlat(env)[i];
            Reused(env, Begin(files), key, text).None? ==> (key in answers <==> env.allowTranslate)
  {
    MapEntriesAre(Flatten(env.source, ""));
    PendingKeys(env, Begin(files), SourceFlat(env));
  }

  lemma {:induction false} FinalTextStands(env: Env, files: Files, answers: map<string, string>, now: int, i: nat)
    requires ValidEnv(env) && Separate(SourceFlat(env)) && i < |SourceFlat(env)|
    requires Answered(env, PendingOf(env, Begin(files), SourceFlat(env)), answers)
    ensures var (key, text) := SourceFlat(env)[i];
            HasText(Expected(env, files, answers, now).locale, key, FinalText(env, Begin(files), answers, key, text))
  {
    var start, flat := Begin(files), SourceFlat(env);
    MapEntriesAre(Flatten(env.source, ""));
    ExistingAfter(flat, FinalTexts(env, start, answers, flat));
    FinalListAt(env, start, answers, flat, i);
    RelabelledIsSeparate(flat, FinalTexts(env, start, answers, flat));
    FlatMapOf(RelabelList(flat, FinalTexts(env, start, answers, flat)), i);
  }

  /** Where the text of a key that is reused comes from. */
  lemma {:induction false} TierOf(env: Env, files: Files, key: string, text: string)
    ensures var reused, refreshed := Reused(env, Begin(files), key, text), IsRefreshed(env, files, key);
            && (forall translated :: !refreshed && Remembers(env, files.memory, key, text, translated) ==>
                                       reused == Some(translated))
            && (forall was :: !refreshed && HasText(files.locale, key, was) &&
                              (forall translated :: !Remembers(env, files.memory, key, text, translated)) ==>
                                reused == Some(was))
            && (refreshed ==> reused.None?)
            && ((forall translated :: !Remembers(env, files.memory, key, text, translated)) &&
                (forall was :: !HasText(files.locale, key, was)) ==>
                  reused.None?)
  {
    var id, start := SegmentKey(env, key, text), Begin(files);
    if id in start.memory {
      assert files.memory.Doc? ==> Remembers(env, files.memory, key, text, start.memory[id].translated);
    }
    if key in start.existing {
      assert files.locale.Doc? ==> HasText(files.locale, key, start.existing[key]);
    }
  }

  /** Which keys the metadata name as being in English: with a provider none; without one those that
      were named before and those for which there is neither a remembered nor an existing text. */
  lemma {:induction false} FallbackKeysExactly(env: Env, files: Files, options: Options, answers: map<string, string>,
                                               now: int, i: nat)
    requires ValidEnv(env) && Answered(env, PendingOf(env, Begin(files), SourceFlat(env)), answers)
    requires options.write && !options.checkOnly && !Throws(env) && i < |SourceFlat(env)|
    ensures var (key, text) := SourceFlat(env)[i];
            var meta := Sync(env, files, options, answers, now).files.meta;
            var named := files.meta.Doc? && key in files.meta.value.fallbackKeys;
            && meta.Doc?
            && (key in meta.value.fallbackKeys <==>
                !env.allowTranslate &&
                (named || ((forall translated :: !Remembers(env, files.memory, key, text, translated)) &&
                           (forall was :: !HasText(files.locale, key, was)))))
  {
    var start, flat := Begin(files), SourceFlat(env);
    FilesAfter(env, files, options, answers, now);
    WhatMetaHolds(env, files.meta, Fallbacks(env, start, answers, flat), |flat|, now);
    SourceKeyFallsBack(env, files, answers, i);
  }

  lemma {:induction false} SourceKeyFallsBack(env: Env, files: Files, answers: map<string, string>, i: nat)
    requires Answered(env, PendingOf(env, Begin(files), SourceFlat(env)), answers) && i < |SourceFlat(env)|
    ensures var (key, text) := SourceFlat(env)[i];
            key in Fallbacks(env, Begin(files), answers, SourceFlat(env)) <==>
                   !env.allowTranslate &&
                   ((files.meta.Doc? && key in files.meta.value.fallbackKeys) ||
                    ((forall translated :: !Remembers(env, files.memory, key, text, translated)) &&
                     (forall was :: !HasText(files.locale, key, was))))
  {
    MapEntriesAre(Flatten(env.source, ""));
    FallbackAt(env, Begin(files), answers, SourceFlat(env), i);
    AnsweredIfPending(env, files, answers, i);
    FallsBackExactly(env, files, answers, SourceFlat(env)[i].0, SourceFlat(env)[i].1);
  }

  lemma {:induction false} FallsBackExactly(env: Env, files: Files, answers: map<string, string>, key: string,
                                            text: string)
    requires Reused(env, Begin(files), key, text).None? ==> (key in answers <==> env.allowTranslate)
    ensures FallsBack(env, Begin(files), answers, key, text) <==>
            !env.allowTranslate &&
            ((files.meta.Doc? && key in files.meta.value.fallbackKeys) ||
             ((forall translated :: !Remembers(env, files.memory, key, text, translated)) &&
              (forall was :: !HasText(files.locale, key, was))))
  {
    TierOf(env, files, key, text);
    if was :| HasText(files.locale, key, was) {
      assert Reused(env, Begin(files), key, text).Some? || IsRefreshed(env, files, key);
    }
  }

  // ----- a run without the provider that the files were made with

  /** The same source and locale, run without a provider. */
  ghost predicate IsWithoutProvider(env': Env, env: Env) {
    && !env'.allowTranslate
    && env'.source == env.source && env'.sourceHash == env.sourceHash && env'.locale == env.locale
    && env'.defaultGlossary == env.defaultGlossary && env'.hashText == env.hashText && env'.cacheKey == env.cacheKey
    && env'.sort == env.sort && env'.refuses == env.refuses
  }

  lemma {:induction false} PendingAlike(env: Env, env': Env, start: Start, flat: seq<(string, string)>)
    requires IsWithoutProvider(env', env) && (env.allowTranslate ==> start.previousFallback == {})
    ensures PendingOf(env', start, flat) == PendingOf(env, start, flat)
    ensures FinalTexts(env', start, map[], flat) == FinalTexts(env, start, map[], flat)
    ensures Fallbacks(env', start, map[], flat) == Fallbacks(env, start, map[], flat)
    decreases |flat|
  {
    if flat != [] {
      var (key, text) := flat[|flat| - 1];
      PendingAlike(env, env', start, flat[..|flat| - 1]);
      assert Reused(env', start, key, text) == Reused(env, start, key, text);
    }
  }

  /** Metadata that a run with a provider wrote are kept by one without. */
  lemma MetaStaysWithoutProvider(env: Env, env': Env, previous: Doc<Meta>, fallback: set<string>, total: nat, now: int,
                                 now': int)
    requires IsWithoutProvider(env', env)
    ensures var meta := NextMeta(env, previous, fallback, total, now);
            NextMeta(env', Doc(meta, true), fallback, total, now') == meta
  {
  }

  lemma ExpectedAlike(env: Env, env': Env, files: Files, now: int)
    requires ValidEnv(env) && ValidEnv(env') && IsWithoutProvider(env', env)
    requires env.allowTranslate ==> Begin(files).previousFallback == {}
    requires PendingOf(env, Begin(files), SourceFlat(env)) == []
    requires Answered(env, [], map[]) && Answered(env', PendingOf(env', Begin(files), SourceFlat(env)), map[])
    ensures var expected, expected' := Expected(env, files, map[], now), Expected(env', files, map[], now);
            expected'.locale == expected.locale && expected'.glossary == expected.glossary &&
            expected'.memory == expected.memory
  {
    PendingAlike(env, env', Begin(files), SourceFlat(env));
  }

  /** After `sync --write` a run without a provider, such as a check where no key is configured, is as
      clean as one with it. */
  lemma CheckWithoutProviderIsClean(env: Env, files: Files, options: Options, answers: map<string, string>, now: int,
                                    env': Env, options': Options, now': int)
    requires ValidEnv(env) && Separate(SourceFlat(env)) && IsWithoutProvider(env', env)
    requires Answered(env, PendingOf(env, Begin(files), SourceFlat(env)), answers)
    requires options.write && !options.checkOnly
    ensures ValidEnv(env')
    ensures var first := Sync(env, files, options, answers, now);
            && first.Done?
            && PendingOf(env', Begin(first.files), SourceFlat(env')) == []
            && Sync(env', first.files, options', map[], now') == Done(first.files, false, first.fallbackCount, false)
  {
    var first, start, flat := Sync(env, files, options, answers, now), Begin(files), SourceFlat(env);
    SecondSyncIsClean(env, files, options, answers, now, options', now');
    SecondRunIsSame(env, files, options, answers, now);
    var after := BeginAfter(env, files, options, answers, now);
    MapEntriesAre(Flatten(env.source, ""));
    if env.allowTranslate {
      NothingFallsBack(env, start, answers, flat);
    }
    PendingAlike(env, env', after, flat);
    assert TB.Keys([]) == {};
    ExpectedAlike(env, env', first.files, now');
    FilesAfter(env, files, options, answers, now);
    SameExpected(env, files, answers, now, first.files, now');
    MetaStaysWithoutProvider(env, env', files.meta, Fallbacks(env, start, answers, flat), |flat|, now, now');
  }

  // ----- a source whose keys are not separate is never settled

  /** A map that has every dotted key as a key of its own. */
  function Literal(flat: seq<(string, string)>): Entries {
    if flat == [] then [] else [Entry(flat[0].0, Leaf(flat[0].1))] + Literal(flat[1..])
  }

  lemma {:induction false} FlattenLiteral(flat: seq<(string, string)>)
    ensures Flatten(Literal(flat), "") == flat
    decreases |flat|
  {
    if flat != [] {
      FlattenLiteral(flat[1..]);
      assert Literal(flat)[1..] == Literal(flat[1..]);
    }
  }

  /** The files of a locale that has been translated by hand, with a text for every key. */
  function HandMade(flat: seq<(string, string)>): Files {
    Files(Doc(Literal(flat), false), Absent, Absent, Absent)
  }

  lemma HandMadeIsReused(env: Env, i: nat)
    requires i < |SourceFlat(env)|
    ensures var flat := SourceFlat(env);
            var start := Begin(HandMade(flat));
            Reused(env, start, flat[i].0, flat[i].1) == Some(flat[i].1) &&
            !FallsBack(env, start, map[], flat[i].0, flat[i].1)
  {
    var flat := SourceFlat(env);
    MapEntriesAre(Flatten(env.source, ""));
    FlattenLiteral(flat);
    FlatMapOf(flat, i);
  }

  /** In the first run with such files every key is there, and nothing falls back. */
  lemma FirstRunReuses(env: Env)
    ensures var flat, start := SourceFlat(env), Begin(HandMade(SourceFlat(env)));
            && PendingOf(env, start, flat) == []
            && RelabelList(flat, FinalTexts(env, start, map[], flat)) == flat
            && Fallbacks(env, start, map[], flat) == {}
  {
    var flat, start := SourceFlat(env), Begin(HandMade(SourceFlat(env)));
    MapEntriesAre(Flatten(env.source, ""));
    forall i | 0 <= i < |flat|
      ensures Reused(env, start, flat[i].0, flat[i].1) == Some(flat[i].1) &&
              !FallsBack(env, start, map[], flat[i].0, flat[i].1)
    {
      HandMadeIsReused(env, i);
    }
    NothingPending(env, start, flat);
    SourceTextsStay(env, start, flat);
  }

  /** So the first run only renders what is there. */
  lemma FirstRunRenders(env: Env, now: int)
    requires ValidEnv(env)
    ensures Answered(env, PendingOf(env, Begin(HandMade(SourceFlat(env))), SourceFlat(env)), map[])
    ensures var flat := SourceFlat(env);
            var after := Completed(env, HandMade(flat), Options(false, false, true), map[], now).files;
            && after.locale == Doc(Rebuild(flat, []), true) && after.memory.Absent?
            && after.meta.Doc? && after.meta.value.fallbackKeys == []
  {
    var files, start := HandMade(SourceFlat(env)), Begin(HandMade(SourceFlat(env)));
    FirstRunReuses(env);
    assert TB.Keys([]) == {};
    NothingToRemember(env, start);
    NothingToSort(env.sort);
    assert Expected(env, files, map[], now).memory == Doc([], true);
  }

  lemma SourceTextsStay(env: Env, start: Start, flat: seq<(string, string)>)
    requires DistinctPairs(flat)
    requires forall i :: 0 <= i < |flat| ==>
                           Reused(env, start, flat[i].0, flat[i].1) == Some(flat[i].1) &&
                           !FallsBack(env, start, map[], flat[i].0, flat[i].1)
    ensures RelabelList(flat, FinalTexts(env, start, map[], flat)) == flat
    ensures Fallbacks(env, start, map[], flat) == {}
  {
    var list := RelabelList(flat, FinalTexts(env, start, map[], flat));
    forall i | 0 <= i < |flat|
      ensures list[i] == flat[i]
    {
      FinalListAt(env, start, map[], flat, i);
    }
    FallbacksAre(env, start, map[], flat);
  }

  lemma NothingToRemember(env: Env, start: Start)
    requires IsSort(env.sort) && start.memory == map[]
    ensures Learned(env, start.memory, [], map[], 0) == map[] && env.sort(start.memory.Keys) == []
    ensures RenderMemory(start.memory, []) == []
  {
    NothingToSort(env.sort);
    assert start.memory.Keys == {};
  }

  lemma NothingToSort(sort: set<string> -> seq<string>)
    requires IsSort(sort)
    ensures sort({}) == []
  {
    FirstIsIn(sort({}));
  }

  lemma FirstIsIn(keys: seq<string>)
    ensures keys != [] ==> exists k :: k in keys
  {
    assert keys != [] ==> keys[0] in keys;
  }

  lemma LostIsNotLoaded(built: Entries, key: string)
    requires !Keeps(built, key)
    ensures key !in FlatMap(Flatten(built, ""))
  {
    FlatMapIs(Flatten(built, ""), key);
  }

  /** A key that neither the memory nor the locale file has, in a run without a provider. */
  lemma MissingKeyFallsBack(env: Env, files: Files, i: nat, now: int)
    requires ValidEnv(env) && !env.allowTranslate && i < |SourceFlat(env)|
    requires Reused(env, Begin(files), SourceFlat(env)[i].0, SourceFlat(env)[i].1).None?
    requires files.meta.Doc? && files.meta.value.fallbackKeys == []
    ensures Answered(env, PendingOf(env, Begin(files), SourceFlat(env)), map[])
    ensures Completed(env, files, Options(true, false, false), map[], now).changed
  {
    var flat, after := SourceFlat(env), Begin(files);
    var fallback := Fallbacks(env, after, map[], flat);
    FallbacksAre(env, after, map[], flat);
    assert FallsBack(env, after, map[], flat[i].0, flat[i].1);
    assert flat[i].0 in env.sort(fallback);
    assert Expected(env, files, map[], now).meta.value.fallbackKeys == env.sort(fallback);
  }

  /** The second run misses the text of a key that the locale could not keep. */
  lemma SecondRunMissesKey(env: Env, files: Files, i: nat)
    requires i < |SourceFlat(env)| && !Keeps(Rebuild(SourceFlat(env), []), SourceFlat(env)[i].0)
    requires files.locale == Doc(Rebuild(SourceFlat(env), []), true) && files.memory.Absent?
    ensures Reused(env, Begin(files), SourceFlat(env)[i].0, SourceFlat(env)[i].1).None?
    ensures PendingOf(env, Begin(files), SourceFlat(env)) != []
  {
    var flat := SourceFlat(env);
    LostIsNotLoaded(files.locale.value, flat[i].0);
    PendingIs(env, Begin(files), flat);
    assert ToItem(env, flat[i].0, flat[i].1) in PendingOf(env, Begin(files), flat);
  }

  /** A run that asks nothing, finds every file as it should be and writes nothing. */
  ghost predicate CleanRun(env: Env, files: Files, fallbackCount: nat, options: Options, now: int)
    requires ValidEnv(env)
  {
    && PendingOf(env, Begin(files), SourceFlat(env)) == []
    && Answered(env, [], map[])
    && Sync(env, files, options, map[], now) == Done(files, false, fallbackCount, false)
  }

  /** After a writing run every further run is clean. */
  ghost predicate Settled(env: Env, files: Files, answers: map<string, string>, now: int)
    requires ValidEnv(env) && Answered(env, PendingOf(env, Begin(files), SourceFlat(env)), answers)
  {
    var first := Sync(env, files, Options(false, false, true), answers, now);
    first.Done? && forall options, now' :: CleanRun(env, first.files, first.fallbackCount, options, now')
  }

  ghost predicate AlwaysSettled(env: Env)
    requires ValidEnv(env)
  {
    forall files, answers, now ::
      Answered(env, PendingOf(env, Begin(files), SourceFlat(env)), answers) ==> Settled(env, files, answers, now)
  }

  lemma SeparateIsSettled(env: Env, files: Files, answers: map<string, string>, now: int)
    requires ValidEnv(env) && Separate(SourceFlat(env)) &&
             Answered(env, PendingOf(env, Begin(files), SourceFlat(env)), answers)
    ensures Settled(env, files, answers, now)
  {
    var first := Sync(env, files, Options(false, false, true), answers, now);
    SeparateNeverThrows(SourceFlat(env), [], env.refuses);
    forall options, now'
      ensures CleanRun(env, first.files, first.fallbackCount, options, now')
    {
      SecondSyncIsClean(env, files, Options(false, false, true), answers, now, options, now');
      assert TB.Keys([]) == {};
    }
  }

  /** A writing run settles every locale exactly when the source's keys are separate. */
  lemma SettledExactly(env: Env)
    requires ValidEnv(env)
    ensures AlwaysSettled(env) <==> Separate(SourceFlat(env))
  {
    if Separate(SourceFlat(env)) {
      forall files, answers, now | Answered(env, PendingOf(env, Begin(files), SourceFlat(env)), answers)
        ensures Settled(env, files, answers, now)
      {
        SeparateIsSettled(env, files, answers, now);
      }
    } else {
      NotSeparateIsUnsettled(env, 0, 0);
      var files := HandMade(SourceFlat(env));
      var first := Sync(env, files, Options(false, false, true), map[], 0);
      assert first.Done? ==> !CleanRun(env, first.files, first.fallbackCount, Options(true, false, false), 0);
      assert !Settled(env, files, map[], 0);
    }
  }

  /** For any other source, either every run throws, or a locale with all the texts sends the second
      run to work, and without a provider that run reports a change. */
  lemma NotSeparateIsUnsettled(env: Env, now: int, now': int)
    requires ValidEnv(env) && !Separate(SourceFlat(env))
    ensures var files, flat := HandMade(SourceFlat(env)), SourceFlat(env);
            && Answered(env, PendingOf(env, Begin(files), flat), map[])
            && var first := Sync(env, files, Options(false, false, true), map[], now);
            if Throws(env) then first.TypeError?
            else
              && first.Done?
              && PendingOf(env, Begin(first.files), flat) != []
              && (!env.allowTranslate ==>
                    && Answered(env, PendingOf(env, Begin(first.files), flat), map[])
                    && var second := Sync(env, first.files, Options(true, false, false), map[], now');
                    second.Done? && second.changed)
  {
    var flat := SourceFlat(env);
    var i := OneIsLost(flat);
    FirstRunRenders(env, now);
    var after := Completed(env, HandMade(flat), Options(false, false, true), map[], now).files;
    SecondRunMissesKey(env, after, i);
    if !env.allowTranslate {
      MissingKeyFallsBack(env, after, i, now');
    }
  }

  // ----- the program

  function ReusedTexts(env: Env, start: Start, flat: seq<(string, string)>): map<string, string> {
    if flat == [] then map[]
    else
      var before, (key, text) := ReusedTexts(env, start, flat[..|flat| - 1]), flat[|flat| - 1];
      var reused := Reused(env, start, key, text);
      if reused.Some? then before[key := reused.value] else before
  }

  function ReusedFallbacks(env: Env, start: Start, flat: seq<(string, string)>): set<string> {
    if flat == [] then {}
    else
      var before, (key, text) := ReusedFallbacks(env, start, flat[..|flat| - 1]), flat[|flat| - 1];
      if Reused(env, start, key, text).Some? && key in start.previousFallback then before + {key} else before
  }

  /** The loop over the source's keys: what can be reused, and what is left to translate. */
  method ResolveKeys(env: Env, start: Start, flat: seq<(string, string)>)
    returns (nextFlat: map<string, string>, pending: Batch, fallback: set<string>)
    ensures nextFlat == ReusedTexts(env, start, flat)
    ensures pending == PendingOf(env, start, flat)
    ensures fallback == ReusedFallbacks(env, start, flat)
  {
    nextFlat, pending, fallback := map[], [], {};
    for i := 0 to |flat|
      invariant nextFlat == ReusedTexts(env, start, flat[..i])
      invariant pending == PendingOf(env, start, flat[..i])
      invariant fallback == ReusedFallbacks(env, start, flat[..i])
    {
      assert flat[..i + 1][..i] == flat[..i];
      var (key, text) := flat[i];
      var shouldRefresh := env.allowTranslate && key in start.previousFallback;
      var id := SegmentKey(env, key, text);
      if id in start.memory && !shouldRefresh {
        nextFlat := nextFlat[key := start.memory[id].translated];
        if key in start.previousFallback {
          fallback := fallback + {key};
        }
      } else if key in start.existing && !shouldRefresh {
        nextFlat := nextFlat[key := start.existing[key]];
        if key in start.previousFallback {
          fallback := fallback + {key};
        }
      } else {
        pending := pending + [ToItem(env, key, text)];
      }
    }
    assert flat[..|flat|] == flat;
  }

  lemma {:induction false} LearnedAgrees(env: Env, memory: Memory, pending: Batch, answers: map<string, string>,
                                         answers': map<string, string>, now: int)
    requires forall i :: 0 <= i < |pending| ==>
                           && pending[i].key in answers && pending[i].key in answers'
                           && answers[pending[i].key] == answers'[pending[i].key]
    ensures Learned(env, memory, pending, answers, now) == Learned(env, memory, pending, answers', now)
    decreases |pending|
  {
    if pending != [] {
      LearnedAgrees(env, memory, pending[..|pending| - 1], answers, answers', now);
    }
  }

  /** No key occurs twice. */
  predicate DistinctItems(items: Batch)
    decreases |items|
  {
    items != [] ==>
      items[|items| - 1].key !in TB.Keys(items[..|items| - 1]) && DistinctItems(items[..|items| - 1])
  }

  lemma KeysStep(items: Batch, n: nat)
    requires n < |items|
    ensures TB.Keys(items[..n + 1]) == TB.Keys(items[..n]) + {items[n].key}
  {
    assert items[..n + 1] == items[..n] + [items[n]];
    assert forall i :: 0 <= i < n ==> items[..n][i] == items[i];
  }

  lemma {:induction false} NextKeyIsNew(items: Batch, n: nat)
    requires n < |items| && DistinctItems(items)
    ensures items[n].key !in TB.Keys(items[..n])
    decreases |items|
  {
    if n < |items| - 1 {
      var init := items[..|items| - 1];
      assert init[..n] == items[..n];
      NextKeyIsNew(init, n);
    }
  }

  /** The first `n` pending keys have been translated and remembered. */
  ghost predicate LearnedSoFar(env: Env, memory: Memory, pending: Batch, n: nat, answers: map<string, string>,
                               memory': Memory, now: int)
  {
    n <= |pending| && AllAnswered(pending[..n], answers) && memory' == Learned(env, memory, pending[..n], answers, now)
  }

  /** What the loop over one batch adds for the next item. */
  lemma LearnedStep(env: Env, memory: Memory, pending: Batch, n: nat, answers: map<string, string>, memory': Memory,
                    value: string, now: int)
    requires n < |pending| && DistinctItems(pending) && !Blank(value)
    requires LearnedSoFar(env, memory, pending, n, answers, memory', now)
    ensures LearnedSoFar(env, memory, pending, n + 1, answers[pending[n].key := value],
                         memory'[pending[n].cacheKey := NewEntry(env, pending[n], value, now)], now)
  {
    KeysStep(pending, n);
    NextKeyIsNew(pending, n);
    var answers' := answers[pending[n].key := value];
    LearnedAgrees(env, memory, pending[..n], answers, answers', now);
    LearnedLast(env, memory, pending, n, answers', now);
  }

  lemma LearnedLast(env: Env, memory: Memory, pending: Batch, n: nat, answers: map<string, string>, now: int)
    requires n < |pending| && pending[n].key in answers
    ensures Learned(env, memory, pending[..n + 1], answers, now) ==
            var entry := NewEntry(env, pending[n], answers[pending[n].key], now);
            Learned(env, memory, pending[..n], answers, now)[pending[n].cacheKey := entry]
  {
    assert pending[..n + 1][..n] == pending[..n];
  }

  /** How many items stand before a batch. */
  ghost function StartOf(batches: seq<Batch>, i: nat): nat
    requires i <= |batches|
  {
    if i == 0 then 0 else StartOf(batches, i - 1) + |batches[i - 1]|
  }

  lemma LearnedNothing(env: Env, memory: Memory, pending: Batch, now: int)
    ensures LearnedSoFar(env, memory, pending, 0, map[], memory, now)
  {
    assert pending[..0] == [] && TB.Keys([]) == {};
  }

  /** A text for every item of a batch. */
  ghost predicate AllAnswered(batch: Batch, translated: map<string, string>) {
    translated.Keys == TB.Keys(batch) && forall key :: key in translated ==> !Blank(translated[key])
  }

  method TranslateOne(child: TB.Oracle, next: nat, batch: Batch) returns (result: TB.Result, after: nat)
    ensures result.Translated? ==> AllAnswered(batch, result.values)
  {
    ghost var log;
    result, after, log := TB.TranslateBatch(child, next, batch);
    if result.Translated? {
      TB.TranslatedIsComplete(child, next, batch, 0);
    }
  }

  /** The batch stands in `pending` from `n` on. */
  ghost predicate Stretch(pending: Batch, n: nat, batch: Batch) {
    n + |batch| <= |pending| && forall j :: 0 <= j < |batch| ==> Stands(pending, n, batch, j)
  }

  ghost predicate Stands(pending: Batch, n: nat, batch: Batch, j: nat)
    requires n + |batch| <= |pending| && j < |batch|
  {
    batch[j] == pending[n + j]
  }

  lemma {:induction false} StartIsLength(batches: seq<Batch>, i: nat)
    requires i <= |batches|
    ensures |Concat(batches[..i])| == StartOf(batches, i)
    decreases i
  {
    if i > 0 {
      StartIsLength(batches, i - 1);
      NextConcat(batches, i - 1);
    }
  }

  lemma StartOfAll(batches: seq<Batch>)
    ensures StartOf(batches, |batches|) == |Concat(batches)|
  {
    StartIsLength(batches, |batches|);
    assert batches[..|batches|] == batches;
  }

  lemma NextConcat(batches: seq<Batch>, i: nat)
    requires i < |batches|
    ensures Concat(batches[..i + 1]) == Concat(batches[..i]) + batches[i]
  {
    ConcatAppend(batches[..i], batches[i]);
    assert batches[..i + 1] == batches[..i] + [batches[i]];
  }

  lemma {:induction false} ConcatBegins(batches: seq<Batch>, i: nat)
    requires i <= |batches|
    ensures Concat(batches[..i]) <= Concat(batches)
    decreases |batches| - i
  {
    if i == |batches| {
      assert batches[..i] == batches;
    } else {
      ConcatBegins(batches, i + 1);
      NextConcat(batches, i);
    }
  }

  /** Where a batch stands among all items. */
  lemma BatchStands(batches: seq<Batch>, i: nat)
    requires i < |batches|
    ensures Stretch(Concat(batches), StartOf(batches, i), batches[i])
    ensures StartOf(batches, i + 1) == StartOf(batches, i) + |batches[i]|
  {
    StartIsLength(batches, i);
    NextConcat(batches, i);
    ConcatBegins(batches, i + 1);
    var before, all := Concat(batches[..i]), Concat(batches);
    forall j | 0 <= j < |batches[i]|
      ensures Stands(all, |before|, batches[i], j)
    {
      assert (before + batches[i])[|before| + j] == batches[i][j];
    }
  }

  lemma ItemOfBatch(pending: Batch, n: nat, batch: Batch, translated: map<string, string>, j: nat)
    requires Stretch(pending, n, batch) && AllAnswered(batch, translated) && j < |batch|
    ensures n + j < |pending| && batch[j] == pending[n + j]
    ensures batch[j].key in translated && !Blank(translated[batch[j].key])
  {
    assert Stands(pending, n, batch, j) && batch[j].key in TB.Keys(batch);
  }

  /** One translated item: its text is used and remembered. */
  method LearnItem(env: Env, ghost memory: Memory, ghost pending: Batch, ghost n: nat, batch: Batch,
                   translated: map<string, string>, j: nat, before: map<string, string>, memory0: Memory, now: int)
    returns (answers: map<string, string>, memory': Memory)
    requires DistinctItems(pending) && Stretch(pending, n, batch) && AllAnswered(batch, translated) && j < |batch|
    requires LearnedSoFar(env, memory, pending, n + j, before, memory0, now)
    ensures LearnedSoFar(env, memory, pending, n + j + 1, answers, memory', now)
  {
    ItemOfBatch(pending, n, batch, translated, j);
    var item := batch[j];
    var value := translated[item.key];
    LearnedStep(env, memory, pending, n + j, before, memory0, value, now);
    answers := before[item.key := value];
    memory' := memory0[item.cacheKey := NewEntry(env, item, value, now)];
  }

  /** The loop over the items of one translated batch, which is the next stretch of `pending`. */
  method LearnBatch(env: Env, ghost memory: Memory, ghost pending: Batch, ghost n: nat, batch: Batch,
                    translated: map<string, string>, before: map<string, string>, memory0: Memory, now: int)
    returns (answers: map<string, string>, memory': Memory)
    requires DistinctItems(pending) && Stretch(pending, n, batch) && AllAnswered(batch, translated)
    requires LearnedSoFar(env, memory, pending, n, before, memory0, now)
    ensures LearnedSoFar(env, memory, pending, n + |batch|, answers, memory', now)
  {
    answers, memory' := before, memory0;
    for j := 0 to |batch|
      invariant LearnedSoFar(env, memory, pending, n + j, answers, memory', now)
    {
      answers, memory' := LearnItem(env, memory, pending, n, batch, translated, j, answers, memory', now);
    }
  }

  /** Sending the pending keys to the translator, batch by batch. */
  method TranslatePending(env: Env, memory: Memory, pending: Batch, child: TB.Oracle, now: int)
    returns (error: Option<string>, answers: map<string, string>, memory': Memory)
    requires DistinctItems(pending)
    ensures error.None? ==> LearnedSoFar(env, memory, pending, |pending|, answers, memory', now)
  {
    error, answers, memory' := None, map[], memory;
    var batches := BuildTranslationBatches(pending, env.budget);
    var next := 0;
    LearnedNothing(env, memory, pending, now);
    for i := 0 to |batches|
      invariant LearnedSoFar(env, memory, pending, StartOf(batches, i), answers, memory', now)
    {
      error, next, answers, memory' :=
        TranslateNext(env, memory, pending, child, next, batches, i, answers, memory', now);
      if error.Some? {
        return;
      }
    }
    StartOfAll(batches);
  }

  /** One turn of that loop. */
  method TranslateNext(env: Env, ghost memory: Memory, ghost pending: Batch, child: TB.Oracle, next: nat,
                       batches: seq<Batch>, i: nat, before: map<string, string>, memory0: Memory, now: int)
    returns (error: Option<string>, after: nat, answers: map<string, string>, memory': Memory)
    requires DistinctItems(pending) && pending == Concat(batches) && i < |batches|
    requires LearnedSoFar(env, memory, pending, StartOf(batches, i), before, memory0, now)
    ensures error.None? ==> LearnedSoFar(env, memory, pending, StartOf(batches, i + 1), answers, memory', now)
  {
    ghost var n := StartOf(batches, i);
    BatchStands(batches, i);
    error, after, answers, memory' := UseBatch(env, memory, pending, n, child, next, batches[i], before, memory0, now);
  }

  /** One batch: translate it, then use and remember its texts. */
  method UseBatch(env: Env, ghost memory: Memory, ghost pending: Batch, ghost n: nat, child: TB.Oracle, next: nat,
                  batch: Batch, before: map<string, string>, memory0: Memory, now: int)
    returns (error: Option<string>, after: nat, answers: map<string, string>, memory': Memory)
    requires DistinctItems(pending) && Stretch(pending, n, batch)
    requires LearnedSoFar(env, memory, pending, n, before, memory0, now)
    ensures error.None? ==> LearnedSoFar(env, memory, pending, n + |batch|, answers, memory', now)
  {
    error, answers, memory' := None, before, memory0;
    var translated;
    translated, after := TranslateOne(child, next, batch);
    if translated.Failed? {
      error := Some(translated.message);
    } else {
      answers, memory' := LearnBatch(env, memory, pending, n, batch, translated.values, before, memory0, now);
    }
  }

  /** The English texts of the keys that nothing else could resolve. */
  function RestTexts(pending: Batch): map<string, string> {
    if pending == [] then map[]
    else RestTexts(pending[..|pending| - 1])[pending[|pending| - 1].key := pending[|pending| - 1].text]
  }

  lemma RestTextsStep(pending: Batch, n: nat)
    requires n < |pending|
    ensures RestTexts(pending[..n + 1]) == RestTexts(pending[..n])[pending[n].key := pending[n].text]
  {
    assert pending[..n + 1][..n] == pending[..n];
  }

  lemma {:induction false} RestTextsKeys(pending: Batch)
    ensures RestTexts(pending).Keys == TB.Keys(pending)
    decreases |pending|
  {
    if pending != [] {
      RestTextsKeys(pending[..|pending| - 1]);
      assert pending == pending[..|pending| - 1] + [pending[|pending| - 1]];
    }
  }

  /** The state of the loop over the pending keys after translation. */
  ghost predicate FilledSoFar(env: Env, pending: Batch, n: nat, translated: map<string, string>, reused: set<string>,
                              nextFlat: map<string, string>, fallback: set<string>)
  {
    n <= |pending| &&
    if env.allowTranslate then nextFlat == translated && fallback == reused
    else nextFlat == translated + RestTexts(pending[..n]) && fallback == reused + TB.Keys(pending[..n])
  }

  lemma AddLast(first: map<string, string>, second: map<string, string>, key: string, text: string)
    ensures (first + second)[key := text] == first + second[key := text]
  {
  }

  lemma FillStep(env: Env, pending: Batch, n: nat, translated: map<string, string>, reused: set<string>,
                 nextFlat: map<string, string>, fallback: set<string>)
    requires n < |pending| && DistinctItems(pending)
    requires env.allowTranslate <==> pending[n].key in translated
    requires FilledSoFar(env, pending, n, translated, reused, nextFlat, fallback)
    ensures if env.allowTranslate then
              pending[n].key in nextFlat && FilledSoFar(env, pending, n + 1, translated, reused, nextFlat, fallback)
            else pending[n].key !in nextFlat &&
                 FilledSoFar(env, pending, n + 1, translated, reused, nextFlat[pending[n].key := pending[n].text],
                             fallback + {pending[n].key})
  {
    if !env.allowTranslate {
      var key, text := pending[n].key, pending[n].text;
      var before, after := RestTexts(pending[..n]), RestTexts(pending[..n + 1]);
      KeysStep(pending, n);
      NextKeyIsNew(pending, n);
      RestTextsStep(pending, n);
      RestTextsKeys(pending[..n]);
      assert after == before[key := text] && key !in before;
      AddLast(translated, before, key, text);
    }
  }

  /** The loop over the pending keys after translation.  With a provider everything has been
      translated; without one the existing file has no text for a pending key, so `force` never
      makes a difference here. */
  method FillPending(env: Env, options: Options, start: Start, pending: Batch, translated: map<string, string>,
                     reused: set<string>)
    returns (nextFlat: map<string, string>, fallback: set<string>)
    requires DistinctItems(pending)
    requires forall i :: 0 <= i < |pending| ==> if env.allowTranslate then pending[i].key in translated
                           else pending[i].key !in translated && pending[i].key !in start.existing
    ensures FilledSoFar(env, pending, |pending|, translated, reused, nextFlat, fallback)
  {
    nextFlat, fallback := translated, reused;
    assert TB.Keys(pending[..0]) == {};
    for n := 0 to |pending|
      invariant FilledSoFar(env, pending, n, translated, reused, nextFlat, fallback)
    {
      var item := pending[n];
      FillStep(env, pending, n, translated, reused, nextFlat, fallback);
      if item.key in nextFlat {
        continue;
      }
      if item.key in start.existing && !options.force {
        assert false;  // the source would take the existing text: it never gets here
      }
      nextFlat := nextFlat[item.key := item.text];
      fallback := fallback + {item.key};
    }
  }

  /** The nested map for the locale file, unless one of the assignments throws. */
  method BuildLocale(env: Env, flat: seq<(string, string)>, nextFlat: map<string, string>)
    returns (locale: Entries, thrown: bool)
    ensures thrown == RebuildThrows(flat, [], env.refuses)
    ensures !thrown ==> locale == Rebuild(RelabelList(flat, nextFlat), [])
  {
    locale, thrown := [], false;
    ghost var list := RelabelList(flat, nextFlat);
    assert list[0..] == list;
    ThrowsByKeysAlone(list, flat, [], [], env.refuses);
    for i := 0 to |flat|
      invariant Rebuild(list[i..], locale) == Rebuild(list, [])
      invariant RebuildThrows(list[i..], locale, env.refuses) == RebuildThrows(list, [], env.refuses)
    {
      assert list[i..][0] == list[i] && list[i..][1..] == list[i + 1..];
      var (key, text) := flat[i];
      if Refused(locale, key, env.refuses) {
        return locale, true;
      }
      locale := SetNestedValue(locale, key, if key in nextFlat then nextFlat[key] else text);
    }
  }

  lemma {:induction false} StagesAt(env: Env, start: Start, flat: seq<(string, string)>, i: nat)
    requires DistinctPairs(flat) && i < |flat|
    ensures var (key, text) := flat[i];
            match Reused(env, start, key, text)
            case Some(value) => key in ReusedTexts(env, start, flat) && ReusedTexts(env, start, flat)[key] == value
            case None => key !in ReusedTexts(env, start, flat) && key in RestTexts(PendingOf(env, start, flat)) &&
                         RestTexts(PendingOf(env, start, flat))[key] == text
    decreases |flat|
  {
    var init, last := flat[..|flat| - 1], flat[|flat| - 1];
    if i < |flat| - 1 {
      StagesAt(env, start, init, i);
    } else {
      assert forall j :: 0 <= j < |init| ==> init[j].0 != last.0;
      if last.0 in ReusedTexts(env, start, init) {
        ReusedKeys(env, start, init, last.0);
      }
    }
    PendingTail(env, start, flat);
  }

  lemma PendingTail(env: Env, start: Start, flat: seq<(string, string)>)
    requires flat != []
    ensures var (key, text) := flat[|flat| - 1];
            RestTexts(PendingOf(env, start, flat)) ==
            if Reused(env, start, key, text).Some? then RestTexts(PendingOf(env, start, flat[..|flat| - 1]))
            else RestTexts(PendingOf(env, start, flat[..|flat| - 1]))[key := text]
  {
    var before := PendingOf(env, start, flat[..|flat| - 1]);
    var item := ToItem(env, flat[|flat| - 1].0, flat[|flat| - 1].1);
    assert (before + [item])[..|before|] == before;
  }

  ghost predicate HasKey(flat: seq<(string, string)>, key: string) {
    exists i :: 0 <= i < |flat| && flat[i].0 == key
  }

  lemma HasKeyStep(flat: seq<(string, string)>, key: string)
    requires flat != []
    ensures HasKey(flat, key) <==> HasKey(flat[..|flat| - 1], key) || key == flat[|flat| - 1].0
  {
    var init := flat[..|flat| - 1];
    if i :| 0 <= i < |init| && init[i].0 == key {
      assert flat[i].0 == key;
    }
    if i :| 0 <= i < |flat| && flat[i].0 == key {
      assert i < |init| ==> init[i].0 == key;
    }
  }

  lemma {:induction false} ReusedKeys(env: Env, start: Start, flat: seq<(string, string)>, key: string)
    requires key in ReusedTexts(env, start, flat)
    ensures HasKey(flat, key)
    decreases |flat|
  {
    HasKeyStep(flat, key);
    if key != flat[|flat| - 1].0 {
      ReusedKeys(env, start, flat[..|flat| - 1], key);
    }
  }

  lemma PendingHasKey(env: Env, start: Start, flat: seq<(string, string)>, key: string)
    requires key in TB.Keys(PendingOf(env, start, flat))
    ensures HasKey(flat, key)
  {
    var pending := PendingOf(env, start, flat);
    var j :| 0 <= j < |pending| && pending[j].key == key;
    assert pending[j] in pending;
    PendingIs(env, start, flat);
  }

  lemma {:induction false} FinalKeys(env: Env, start: Start, answers: map<string, string>, flat: seq<(string, string)>,
                                     key: string)
    ensures key in FinalTexts(env, start, answers, flat) <==> HasKey(flat, key)
    decreases |flat|
  {
    if flat != [] {
      HasKeyStep(flat, key);
      FinalKeys(env, start, answers, flat[..|flat| - 1], key);
    }
  }

  ghost function StagedTexts(env: Env, start: Start, answers: map<string, string>,
                             flat: seq<(string, string)>): map<string, string>
  {
    var translated := ReusedTexts(env, start, flat) + answers;
    if env.allowTranslate then translated else translated + RestTexts(PendingOf(env, start, flat))
  }

  lemma StagedText(env: Env, start: Start, answers: map<string, string>, flat: seq<(string, string)>, i: nat)
    requires DistinctPairs(flat) && Answered(env, PendingOf(env, start, flat), answers) && i < |flat|
    ensures flat[i].0 in StagedTexts(env, start, answers, flat)
    ensures StagedTexts(env, start, answers, flat)[flat[i].0] == FinalText(env, start, answers, flat[i].0, flat[i].1)
  {
    StagesAt(env, start, flat, i);
    PendingKeys(env, start, flat);
    RestTextsKeys(PendingOf(env, start, flat));
  }

  lemma StagedKeys(env: Env, start: Start, answers: map<string, string>, flat: seq<(string, string)>, key: string)
    requires Answered(env, PendingOf(env, start, flat), answers)
    requires key in StagedTexts(env, start, answers, flat)
    ensures HasKey(flat, key)
  {
    RestTextsKeys(PendingOf(env, start, flat));
    if key in ReusedTexts(env, start, flat) {
      ReusedKeys(env, start, flat, key);
    } else {
      PendingHasKey(env, start, flat, key);
    }
  }

  /** The stages together give every key its final text. */
  lemma StagesGiveFinalTexts(env: Env, start: Start, answers: map<string, string>, flat: seq<(string, string)>)
    requires DistinctPairs(flat) && Answered(env, PendingOf(env, start, flat), answers)
    ensures FinalTexts(env, start, answers, flat) == StagedTexts(env, start, answers, flat)
  {
    var staged, final := StagedTexts(env, start, answers, flat), FinalTexts(env, start, answers, flat);
    forall key
      ensures key in staged <==> key in final
      ensures key in final ==> staged[key] == final[key]
    {
      FinalKeys(env, start, answers, flat, key);
      if key in staged {
        StagedKeys(env, start, answers, flat, key);
      }
      if HasKey(flat, key) {
        var i :| 0 <= i < |flat| && flat[i].0 == key;
        StagedText(env, start, answers, flat, i);
        FinalTextsAt(env, start, answers, flat, i);
      }
    }
  }

  lemma {:induction false} StagesGiveFallbacks(env: Env, start: Start, answers: map<string, string>,
                                               flat: seq<(string, string)>)
    requires DistinctPairs(flat)
    requires if env.allowTranslate then
               forall i :: 0 <= i < |flat| ==> Reused(env, start, flat[i].0, flat[i].1).None? ==> flat[i].0 in answers
             else answers == map[]
    ensures Fallbacks(env, start, answers, flat) ==
            ReusedFallbacks(env, start, flat) + if env.allowTranslate then {} else TB.Keys(PendingOf(env, start, flat))
    decreases |flat|
  {
    if flat != [] {
      var init := flat[..|flat| - 1];
      var (key, text) := flat[|flat| - 1];
      StagesGiveFallbacks(env, start, answers, init);
      var before := PendingOf(env, start, init);
      var item := ToItem(env, key, text);
      assert TB.Keys(before + [item]) == TB.Keys(before) + {key} by {
        assert forall i :: 0 <= i < |before| ==> (before + [item])[i] == before[i];
        assert (before + [item])[|before|] == item;
      }
    }
  }

  lemma AppendedIsDistinct(items: Batch, item: Item)
    requires DistinctItems(items) && item.key !in TB.Keys(items)
    ensures DistinctItems(items + [item])
  {
    assert (items + [item])[..|items|] == items;
  }

  lemma LastKeyIsNotPending(env: Env, start: Start, flat: seq<(string, string)>)
    requires DistinctPairs(flat) && flat != []
    ensures flat[|flat| - 1].0 !in TB.Keys(PendingOf(env, start, flat[..|flat| - 1]))
  {
    var init, key := flat[..|flat| - 1], flat[|flat| - 1].0;
    assert !HasKey(init, key);
    if key in TB.Keys(PendingOf(env, start, init)) {
      PendingHasKey(env, start, init, key);
    }
  }

  lemma {:induction false} PendingIsDistinct(env: Env, start: Start, flat: seq<(string, string)>)
    requires DistinctPairs(flat)
    ensures DistinctItems(PendingOf(env, start, flat))
    decreases |flat|
  {
    if flat != [] {
      var before, last := PendingOf(env, start, flat[..|flat| - 1]), flat[|flat| - 1];
      PendingIsDistinct(env, start, flat[..|flat| - 1]);
      LastKeyIsNotPending(env, start, flat);
      AppendedIsDistinct(before, ToItem(env, last.0, last.1));
    }
  }

  /** One run for one locale.  `answers` is what the translator returned for the pending keys; a run
      that throws has written nothing. */
  method Run(env: Env, files: Files, options: Options, child: TB.Oracle, now: int)
    returns (outcome: Outcome, ghost answers: map<string, string>)
    requires ValidEnv(env)
    ensures !outcome.Threw? ==> Answered(env, PendingOf(env, Begin(files), SourceFlat(env)), answers) &&
                                outcome == Sync(env, files, options, answers, now)
    ensures outcome.Threw? ==> env.allowTranslate && PendingOf(env, Begin(files), SourceFlat(env)) != []
  {
    var start, flat := Begin(files), SourceFlat(env);
    MapEntriesAre(Flatten(env.source, ""));
    var nextFlat, pending, fallback := ResolveKeys(env, start, flat);
    PendingIsDistinct(env, start, flat);
    PendingKeys(env, start, flat);
    var memory := start.memory;
    answers := map[];
    if env.allowTranslate && pending != [] {
      var error, translated;
      error, translated, memory := TranslatePending(env, start.memory, pending, child, now);
      if error.Some? {
        return Threw(error.value), answers;
      }
      assert pending[..|pending|] == pending;
      nextFlat := nextFlat + translated;
      answers := translated;
    } else {
      NothingLearned(env, memory, pending, now);
      assert nextFlat + map[] == nextFlat;
    }
    assert Answered(env, pending, answers);
    assert memory == Learned(env, start.memory, pending, answers, now);
    outcome := Finish(env, files, options, start, flat, pending, nextFlat, fallback, memory, answers, now);
  }

  lemma {:induction false} NothingLearned(env: Env, memory: Memory, pending: Batch, now: int)
    ensures Learned(env, memory, pending, map[], now) == memory
    decreases |pending|
  {
    if pending != [] {
      NothingLearned(env, memory, pending[..|pending| - 1], now);
    }
  }

  /** The second half of a run: fill in English, compare with the files, and write. */
  method Finish(env: Env, files: Files, options: Options, start: Start, flat: seq<(string, string)>, pending: Batch,
                translated: map<string, string>, reused: set<string>, memory: Memory,
                ghost answers: map<string, string>, now: int)
    returns (outcome: Outcome)
    requires ValidEnv(env) && start == Begin(files) && flat == SourceFlat(env) && pending == PendingOf(env, start, flat)
    requires Answered(env, pending, answers) && translated == ReusedTexts(env, start, flat) + answers
    requires reused == ReusedFallbacks(env, start, flat) && memory == Learned(env, start.memory, pending, answers, now)
    ensures outcome == Sync(env, files, options, answers, now)
  {
    MapEntriesAre(Flatten(env.source, ""));
    ReadyToFill(env, start, answers, flat);
    var nextFlat, fallback := FillPending(env, options, start, pending, translated, reused);
    assert pending[..|pending|] == pending;
    StagesGiveFinalTexts(env, start, answers, flat);
    StagesGiveFallbacks(env, start, answers, flat);
    assert nextFlat == FinalTexts(env, start, answers, flat) && fallback == Fallbacks(env, start, answers, flat);
    var locale, thrown := BuildLocale(env, flat, nextFlat);
    if thrown {
      return TypeError;
    }
    outcome := Publish(env, files, options, start, flat, locale, fallback, memory, answers, now);
  }

  method Publish(env: Env, files: Files, options: Options, ghost start: Start, flat: seq<(string, string)>,
                 locale: Entries,
                 fallback: set<string>, memory: Memory, ghost answers: map<string, string>, now: int)
    returns (outcome: Outcome)
    requires ValidEnv(env) && start == Begin(files) && flat == SourceFlat(env)
    requires Answered(env, PendingOf(env, start, flat), answers)
    requires locale == Rebuild(RelabelList(flat, FinalTexts(env, start, answers, flat)), [])
    requires fallback == Fallbacks(env, start, answers, flat)
    requires memory == Learned(env, start.memory, PendingOf(env, start, flat), answers, now)
    ensures outcome == Completed(env, files, options, answers, now)
  {
    var expected := BuildExpected(env, files, start, flat, locale, fallback, memory, answers, now);
    var changed := Differs(files, expected);
    if !changed || (files.meta.Doc? && files.meta.value.sourceHash == env.sourceHash && !options.force &&
                    !options.checkOnly && !options.write) {
      return Done(files, changed, |expected.meta.value.fallbackKeys|, false);
    }
    var files' := files;
    if !options.checkOnly && options.write {
      files' := Written(files, expected);
    }
    var wrote := !options.checkOnly && options.write && changed;
    outcome := Done(files', changed, |expected.meta.value.fallbackKeys|, wrote);
  }

  method BuildExpected(env: Env, files: Files, ghost start: Start, flat: seq<(string, string)>, locale: Entries,
                       fallback: set<string>, memory: Memory, ghost answers: map<string, string>, now: int)
    returns (expected: Files)
    requires ValidEnv(env) && start == Begin(files) && flat == SourceFlat(env)
    requires Answered(env, PendingOf(env, start, flat), answers)
    requires locale == Rebuild(RelabelList(flat, FinalTexts(env, start, answers, flat)), [])
    requires fallback == Fallbacks(env, start, answers, flat)
    requires memory == Learned(env, start.memory, PendingOf(env, start, flat), answers, now)
    ensures expected == Expected(env, files, answers, now)
  {
    var meta := NextMeta(env, files.meta, fallback, |flat|, now);
    var glossary := if files.glossary.Doc? then files.glossary.value else [];
    LearnedIsClean(env, files, answers, now);
    LoadRendered(memory, env.sort);
    expected := Files(Doc(locale, true), Doc(meta, true),
                      Doc(if glossary == [] then env.defaultGlossary else glossary, true),
                      Doc(RenderMemory(memory, env.sort(memory.Keys)), true));
  }

  lemma ReadyToFill(env: Env, start: Start, answers: map<string, string>, flat: seq<(string, string)>)
    requires DistinctPairs(flat) && Answered(env, PendingOf(env, start, flat), answers)
    ensures DistinctItems(PendingOf(env, start, flat))
    ensures forall i :: 0 <= i < |flat| && Reused(env, start, flat[i].0, flat[i].1).None? && env.allowTranslate ==>
                          flat[i].0 in answers
    ensures var pending, translated := PendingOf(env, start, flat), ReusedTexts(env, start, flat) + answers;
            forall i :: 0 <= i < |pending| ==>
                          if env.allowTranslate then pending[i].key in translated
                          else pending[i].key !in translated && pending[i].key !in start.existing
  {
    var pending := PendingOf(env, start, flat);
    PendingIsDistinct(env, start, flat);
    PendingIs(env, start, flat);
    PendingKeys(env, start, flat);
    forall i | 0 <= i < |pending|
      ensures pending[i].key in TB.Keys(pending)
      ensures !env.allowTranslate ==>
                pending[i].key !in ReusedTexts(env, start, flat) && pending[i].key !in start.existing
    {
      assert pending[i] in pending;
      var j :| 0 <= j < |flat| && Reused(env, start, flat[j].0, flat[j].1).None? &&
               pending[i] == ToItem(env, flat[j].0, flat[j].1);
      StagesAt(env, start, flat, j);
    }
  }

  /** Two runs in a row: the second one prompts nobody and changes nothing. */
  method RunTwice(env: Env, files: Files, options: Options, child: TB.Oracle, now: int, options': Options,
                  child': TB.Oracle, now': int)
    returns (first: Outcome, second: Outcome)
    requires ValidEnv(env) && Separate(SourceFlat(env)) && options.write && !options.checkOnly
    ensures !first.TypeError?
    ensures first.Done? ==> second == Done(first.files, false, first.fallbackCount, false)
  {
    ghost var answers, answers';
    SeparateNeverThrows(SourceFlat(env), [], env.refuses);
    first, answers := Run(env, files, options, child, now);
    second := first;
    if first.Done? {
      second, answers' := Run(env, first.files, options', child', now');
      SecondSyncIsClean(env, files, options, answers, now, options', now');
      assert TB.Keys([]) == {};
      assert second.Done? ==> answers' == map[];
    }
  }
}
