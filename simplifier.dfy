/**
 * The deterministic part of `simplify_report`: the model's reply, or "{}"
 * when it is empty, is stripped of code fences exactly as the analyser does
 * it and decoded; every abnormality becomes an `AbnormalityFlag` whose
 * severity goes through a smaller, exact-only synonym table; and the
 * `SimplifiedReport` is assembled around the caller's summary. The model
 * call is replaced by its reply, and `json.loads` by the parameter `loads`.
 */
module Simplifier {

  import opened Wrappers
  import opened Exceptions
  import opened Text
  import opened Payload
  import opened Schemas
  import opened Analyzer

  // ------------------------------------------------------------ the reply

  /** `content or "{}"`: a missing or empty reply stands for an empty object. */
  function ReplyText(content: Option<string>): (r: string)
    ensures r == "{}" <==> content.None? || content.value == "" || content.value == "{}"
    ensures content.Some? && content.value != "" ==> r == content.value
  {
    if content.None? || content.value == "" then "{}" else content.value
  }

  /** "{}" is only trimmed on its way to `json.loads`. */
  lemma EmptyObjectTextUnchanged()
    ensures StripCodeFences("{}") == "{}"
  {
    assert IsTrimmed("{}");
    TrimTrimmed("{}");
    StripUnfenced("{}");
  }

  // ------------------------------------------------------------- severity

  /** The 12 synonyms of the fallback in `simplify_report`, in their listed order. */
  const FALLBACK_SEVERITIES: SynonymTable := [
    ("borderline", Low),
    ("slightly elevated", Low),
    ("slightly low", Low),
    ("elevated", Medium),
    ("abnormal", Medium),
    ("moderate", Medium),
    ("mild", Low),
    ("severe", High),
    ("very high", Critical),
    ("very low", High),
    ("within range", Normal),
    ("within normal limits", Normal)
  ]

  /**
   * The severity step of `simplify_report` over a synonym table: lowercase
   * and trim; then the level of that name; then the synonym with exactly that
   * key; else `Low`. There is no substring step.
   */
  function FallbackSeverityIn(table: SynonymTable, raw: string): (r: SeverityLevel)
    ensures SeverityFromValue(Clean(raw)).Some? ==> r == SeverityFromValue(Clean(raw)).value
    ensures r == Low || SeverityFromValue(Clean(raw)) == Some(r) || exists i | 0 <= i < |table| :: table[i] == (Clean(raw), r)
  {
    var s := Clean(raw);
    match SeverityFromValue(s)
    case Some(level) => level
    case None => Lookup(table, s).GetOr(Low)
  }

  /** The severity step of `simplify_report`, with its own 12-entry table. */
  function FallbackSeverity(raw: string): SeverityLevel {
    FallbackSeverityIn(FALLBACK_SEVERITIES, raw)
  }

  /** The level depends only on the input lowercased and trimmed, whatever the table. */
  lemma FallbackUsesCleanInputOnly(table: SynonymTable, raw: string)
    ensures FallbackSeverityIn(table, raw) == FallbackSeverityIn(table, Clean(raw))
  {
    CleanIdempotent(raw);
  }

  /** A level's name in any letter case and with any whitespace around it is that level, whatever the table. */
  lemma FallbackPaddedName(table: SynonymTable, p: string, name: string, q: string, level: SeverityLevel)
    requires AllSpace(p) && AllSpace(q) && Lower(name) == level.Value()
    ensures FallbackSeverityIn(table, p + name + q) == level
  {
    LowerConcat(p + name, q);
    LowerConcat(p, name);
    LowerKeepsSpace(p);
    LowerKeepsSpace(q);
    LevelNamePlain(level);
    TrimPadded(Lower(p), level.Value(), Lower(q));
    EnumValuesRoundTrip();
  }

  /** Every level's name gives back that level, whatever the table; so an absent severity, "normal", is `Normal`. */
  lemma FallbackRoundTrip(table: SynonymTable, level: SeverityLevel)
    ensures FallbackSeverityIn(table, level.Value()) == level
  {
    LevelNamePlain(level);
    FallbackPaddedName(table, "", level.Value(), "", level);
    assert "" + level.Value() + "" == level.Value();
  }

  /** In a table without repeated keys, a plain key gives its own level. */
  lemma FallbackKey(table: SynonymTable, i: nat)
    requires DistinctKeys(table) && i < |table| && IsPlainKey(table[i].0)
    ensures FallbackSeverityIn(table, table[i].0) == table[i].1
  {
    PlainKeyClean(table[i].0);
    LookupKey(table, i);
  }

  /** A string that, cleaned, is no level name and no key is `Low`, whether or not a key is inside it. */
  lemma FallbackExactOnly(table: SynonymTable, raw: string)
    requires SeverityFromValue(Clean(raw)).None?
    requires forall i | 0 <= i < |table| :: table[i].0 != Clean(raw)
    ensures FallbackSeverityIn(table, raw) == Low
  {
  }

  /** No key of the fallback table is repeated. */
  lemma FallbackKeysDistinct()
    ensures DistinctKeys(FALLBACK_SEVERITIES)
  {
    FallbackKeysDistinctFrom(0, 6);
    FallbackKeysDistinctFrom(6, 12);
  }

  /** The keys at positions `lo` to `hi - 1` occur nowhere later in the fallback table. */
  lemma FallbackKeysDistinctFrom(lo: nat, hi: nat)
    requires (lo, hi) in {(0, 6), (6, 12)}
    ensures forall i, j | lo <= i < hi && i < j < |FALLBACK_SEVERITIES| ::
      FALLBACK_SEVERITIES[i].0 != FALLBACK_SEVERITIES[j].0
  {
  }

  /** Every key of the fallback table is a plain key. */
  lemma FallbackKeysPlain()
    ensures forall i | 0 <= i < |FALLBACK_SEVERITIES| :: IsPlainKey(FALLBACK_SEVERITIES[i].0)
  {
    FallbackKeysPlainFrom(0, 6);
    FallbackKeysPlainFrom(6, 12);
  }

  /** The keys at positions `lo` to `hi - 1` of the fallback table are plain. */
  lemma FallbackKeysPlainFrom(lo: nat, hi: nat)
    requires (lo, hi) in {(0, 6), (6, 12)}
    ensures forall i | lo <= i < hi :: IsPlainKey(FALLBACK_SEVERITIES[i].0)
  {
  }

  /** Every key of the fallback table gives its listed level. */
  lemma FallbackSynonyms()
    ensures forall i | 0 <= i < |FALLBACK_SEVERITIES| ::
      FallbackSeverity(FALLBACK_SEVERITIES[i].0) == FALLBACK_SEVERITIES[i].1
  {
    FallbackKeysPlain();
    FallbackKeysDistinct();
    forall i | 0 <= i < |FALLBACK_SEVERITIES|
      ensures FallbackSeverity(FALLBACK_SEVERITIES[i].0) == FALLBACK_SEVERITIES[i].1
    {
      FallbackKey(FALLBACK_SEVERITIES, i);
    }
  }

  /** Where each fallback entry sits in the analyser's table. */
  const FALLBACK_POSITIONS: seq<nat> := [0, 1, 2, 3, 4, 8, 9, 10, 11, 12, 16, 17]

  /** Entries 0 to 5 of the fallback table are entries of the analyser's table. */
  lemma FallbackEntriesFrom0()
    ensures forall i | 0 <= i < 6 ::
      FALLBACK_POSITIONS[i] < |SEVERITY_SYNONYMS| && FALLBACK_SEVERITIES[i] == SEVERITY_SYNONYMS[FALLBACK_POSITIONS[i]]
  {
  }

  /** Entries 6 to 11 of the fallback table are entries of the analyser's table. */
  lemma FallbackEntriesFrom6()
    ensures forall i | 6 <= i < 12 ::
      FALLBACK_POSITIONS[i] < |SEVERITY_SYNONYMS| && FALLBACK_SEVERITIES[i] == SEVERITY_SYNONYMS[FALLBACK_POSITIONS[i]]
  {
  }

  /** Every fallback key is a key of the analyser's table with the same level. */
  lemma FallbackEntriesInSynonyms()
    ensures |FALLBACK_POSITIONS| == |FALLBACK_SEVERITIES|
    ensures forall i | 0 <= i < |FALLBACK_SEVERITIES| ::
      FALLBACK_POSITIONS[i] < |SEVERITY_SYNONYMS| && FALLBACK_SEVERITIES[i] == SEVERITY_SYNONYMS[FALLBACK_POSITIONS[i]]
  {
    FallbackEntriesFrom0();
    FallbackEntriesFrom6();
  }

  /** On every fallback key, the two severity steps agree, and both give the listed level. */
  lemma FallbackAgreesWithAnalyzer()
    ensures forall i | 0 <= i < |FALLBACK_SEVERITIES| ::
      && FallbackSeverity(FALLBACK_SEVERITIES[i].0) == FALLBACK_SEVERITIES[i].1
      && NormalizeSeverity(FALLBACK_SEVERITIES[i].0) == FALLBACK_SEVERITIES[i].1
  {
    FallbackSynonyms();
    FallbackEntriesInSynonyms();
    NormalizeSynonyms();
    forall i | 0 <= i < |FALLBACK_SEVERITIES|
      ensures NormalizeSeverity(FALLBACK_SEVERITIES[i].0) == FALLBACK_SEVERITIES[i].1
    {
      assert FALLBACK_SEVERITIES[i] == SEVERITY_SYNONYMS[FALLBACK_POSITIONS[i]];
    }
  }

  /** "extremely high" is no level name and no fallback key. */
  lemma ExtremelyHighIsNoFallbackKey()
    ensures Clean("extremely high") == "extremely high"
    ensures SeverityFromValue("extremely high").None?
    ensures forall i | 0 <= i < |FALLBACK_SEVERITIES| :: FALLBACK_SEVERITIES[i].0 != "extremely high"
  {
    assert IsPlainKey("extremely high");
    PlainKeyClean("extremely high");
  }

  /** "urgent" is no level name and no fallback key. */
  lemma UrgentIsNoFallbackKey()
    ensures Clean("urgent") == "urgent"
    ensures SeverityFromValue("urgent").None?
    ensures forall i | 0 <= i < |FALLBACK_SEVERITIES| :: FALLBACK_SEVERITIES[i].0 != "urgent"
  {
    assert IsPlainKey("urgent");
    PlainKeyClean("urgent");
  }

  /** "extremely high" and "urgent", both `Critical` keys of the analyser, are `Low` here. */
  lemma FallbackMissesAnalyzerKeys()
    ensures FallbackSeverity("extremely high") == Low
    ensures FallbackSeverity("urgent") == Low
  {
    ExtremelyHighIsNoFallbackKey();
    FallbackExactOnly(FALLBACK_SEVERITIES, "extremely high");
    UrgentIsNoFallbackKey();
    FallbackExactOnly(FALLBACK_SEVERITIES, "urgent");
  }

  // ------------------------------------------------------------- builders

  /** The fields of one abnormality that would make building its flag raise, when none does. */
  predicate WellFormedAbnormality(ab: Json) {
    && ab.Obj?
    && StrOrAbsent(ab.fields, "severity")
    && StrOrAbsent(ab.fields, "parameter")
    && StrOrAbsent(ab.fields, "value")
    && StrOrAbsent(ab.fields, "explanation")
    && OptStrOrAbsent(ab.fields, "recommendation")
  }

  /** The flag one abnormality's fields make, given its severity: each field of the wrong type fails pydantic's check. */
  function FlagOf(m: map<string, Json>, severity: SeverityLevel): (r: Result<AbnormalityFlag, PyException>)
    ensures r.Success? <==>
      StrOrAbsent(m, "parameter") && StrOrAbsent(m, "value") && StrOrAbsent(m, "explanation")
      && OptStrOrAbsent(m, "recommendation")
    ensures r.Failure? ==> r.error == ValidationError
    ensures r.Success? ==>
      r.value == AbnormalityFlag(
        StrOr(m, "parameter", "Unknown"), StrOr(m, "value", "N/A"), severity,
        StrOr(m, "explanation", ""), OptStrOf(m, "recommendation"))
  {
    var parameter :- AsStr(Get(m, "parameter", Str("Unknown")));
    var value :- AsStr(Get(m, "value", Str("N/A")));
    var explanation :- AsStr(Get(m, "explanation", Str("")));
    var recommendation :- AsOptionalStr(Get(m, "recommendation", Null));
    Success(AbnormalityFlag(parameter, value, severity, explanation, recommendation))
  }

  /**
   * One iteration of the abnormalities loop. A non-object has no `.get`, and
   * a non-string severity no `.lower`: both raise `AttributeError` before the
   * flag is built.
   */
  function FlagFrom(ab: Json): (r: Result<AbnormalityFlag, PyException>)
    ensures r.Success? <==> WellFormedAbnormality(ab)
    ensures r.Failure? ==>
      r.error == (if ab.Obj? && StrOrAbsent(ab.fields, "severity") then ValidationError else AttributeError)
    ensures r.Success? ==>
      r.value == FlagOf(ab.fields, FallbackSeverity(StrOr(ab.fields, "severity", "normal"))).value
  {
    if !ab.Obj? then Failure(AttributeError)
    else
      var severity := Get(ab.fields, "severity", Str("normal"));
      if !severity.Str? then Failure(AttributeError)
      else FlagOf(ab.fields, FallbackSeverity(severity.s))
  }

  /** An abnormality whose severity is absent or "normal" is flagged `Normal`. */
  lemma FlagWithNormalSeverity(ab: Json)
    requires ab.Obj? && StrOrAbsent(ab.fields, "severity") && StrOr(ab.fields, "severity", "normal") == "normal"
    ensures FlagFrom(ab) == FlagOf(ab.fields, Normal)
  {
    FallbackRoundTrip(FALLBACK_SEVERITIES, Normal);
  }

  /** An abnormality without fields gets every default. */
  lemma FlagDefaults()
    ensures FlagFrom(Obj(map[])) == Success(AbnormalityFlag("Unknown", "N/A", Normal, ""))
  {
    FlagWithNormalSeverity(Obj(map[]));
  }

  /**
   * The `abnormalities` values the loop gets through: a list of well-formed
   * abnormalities, or an empty string or object, which the loop never enters.
   */
  predicate WellFormedAbnormalities(v: Json) {
    match v
    case Arr(items) => forall i | 0 <= i < |items| :: WellFormedAbnormality(items[i])
    case Str(s) => s == []
    case Obj(m) => m == map[]
    case _ => false
  }

  /** The payload shapes for which `simplify_report` returns a report. */
  predicate WellFormedSimplification(result: Json) {
    && result.Obj?
    && WellFormedAbnormalities(Get(result.fields, "abnormalities", Arr([])))
    && StrOrAbsent(result.fields, "simplified_summary")
    && (("followup_questions" in result.fields) ==> IsStrList(result.fields["followup_questions"]))
  }

  /**
   * What `simplify_report` builds from the decoded payload: the flags in
   * order, the simplified summary, the follow-up questions, and the caller's
   * identifier and summary.
   */
  function SimplifiedFrom(result: Json, analysisSummary: string, fileId: string)
    : (r: Result<SimplifiedReport, PyException>)
  {
    if !result.Obj? then Failure(AttributeError)
    else
      var m := result.fields;
      var elems :- Elements(Get(m, "abnormalities", Arr([])));
      var flags :- MapAll(FlagFrom, elems);
      var simplified :- AsStr(Get(m, "simplified_summary", Str(DEFAULT_SUMMARY)));
      var questions :- AsStrList(Get(m, "followup_questions", Arr([])));
      Success(SimplifiedReport(fileId, analysisSummary, simplified, flags, questions))
  }

  /** The loop over `abnormalities` gets through exactly the well-formed values. */
  lemma FlagsLoopSucceedsIff(v: Json)
    ensures (Elements(v).Success? && MapAll(FlagFrom, Elements(v).value).Success?) <==> WellFormedAbnormalities(v)
  {
    if v.Str? && |v.s| > 0 {
      assert !FlagFrom(Elements(v).value[0]).Success?;
    }
  }

  /** `simplify_report` returns a report exactly for the well-formed payloads, and otherwise raises. */
  lemma SimplifiedSucceedsIff(result: Json, analysisSummary: string, fileId: string)
    ensures SimplifiedFrom(result, analysisSummary, fileId).Success? <==> WellFormedSimplification(result)
  {
    if result.Obj? {
      FlagsLoopSucceedsIff(Get(result.fields, "abnormalities", Arr([])));
    }
  }

  /**
   * A report carries the identifier and the analysis summary passed in, the
   * simplified summary or "Analysis complete.", the follow-up questions or
   * none, the fixed disclaimer, and one flag per element of
   * `abnormalities`, in order, none when the key is absent.
   */
  lemma SimplifiedFields(result: Json, analysisSummary: string, fileId: string)
    requires SimplifiedFrom(result, analysisSummary, fileId).Success?
    ensures var r := SimplifiedFrom(result, analysisSummary, fileId).value; var m := result.fields;
      && r.fileId == fileId && r.originalSummary == analysisSummary && r.disclaimer == DISCLAIMER
      && StrOrAbsent(m, "simplified_summary") && r.simplifiedSummary == StrOr(m, "simplified_summary", DEFAULT_SUMMARY)
      && ("followup_questions" !in m ==> r.followupQuestions == [])
      && ("followup_questions" in m ==>
            && |r.followupQuestions| == |m["followup_questions"].items|
            && forall i | 0 <= i < |r.followupQuestions| ::
                 m["followup_questions"].items[i] == Str(r.followupQuestions[i]))
      && ("abnormalities" !in m ==> r.abnormalities == [])
      && ("abnormalities" in m && m["abnormalities"].Arr? ==>
            && |r.abnormalities| == |m["abnormalities"].items|
            && forall i | 0 <= i < |r.abnormalities| ::
                 FlagFrom(m["abnormalities"].items[i]) == Success(r.abnormalities[i]))
  {
    var m := result.fields;
    var elems := Elements(Get(m, "abnormalities", Arr([])));
    assert elems.Success?;
    assert MapAll(FlagFrom, elems.value).Success?;
  }

  /** An empty payload gives a report with every default. */
  lemma EmptyPayloadReport(analysisSummary: string, fileId: string)
    ensures SimplifiedFrom(Obj(map[]), analysisSummary, fileId)
         == Success(SimplifiedReport(fileId, analysisSummary, DEFAULT_SUMMARY))
  {
    assert AsStrList(Arr([])) == Success([]);
  }

  // ------------------------------------------------------------ entry point

  /** What `simplify_report` returns for the model's reply `content`. */
  function SimplifyReply(loads: string -> Option<Json>, content: Option<string>, analysisSummary: string, fileId: string)
    : Result<SimplifiedReport, PyException>
  {
    var result :- ParseAiResponse(loads, ReplyText(content));
    SimplifiedFrom(result, analysisSummary, fileId)
  }

  /** The deterministic part of `simplify_report`, step by step. */
  method SimplifyReport(loads: string -> Option<Json>, content: Option<string>, analysisSummary: string, fileId: string)
    returns (r: Result<SimplifiedReport, PyException>)
    ensures r == SimplifyReply(loads, content, analysisSummary, fileId)
  {
    var text := CleanReply(ReplyText(content));
    var decoded := loads(text);
    if decoded.None? {
      return Failure(JsonDecodeError);
    }
    var result := decoded.value;
    if !result.Obj? {
      return Failure(AttributeError);
    }
    var m := result.fields;
    var elems := Elements(Get(m, "abnormalities", Arr([])));
    if elems.Failure? {
      return Failure(elems.error);
    }
    var flags := AppendEach(FlagFrom, elems.value);
    if flags.Failure? {
      return Failure(flags.error);
    }
    var simplified := AsStr(Get(m, "simplified_summary", Str(DEFAULT_SUMMARY)));
    if simplified.Failure? {
      return Failure(simplified.error);
    }
    var questions := AsStrList(Get(m, "followup_questions", Arr([])));
    if questions.Failure? {
      return Failure(questions.error);
    }
    r := Success(SimplifiedReport(fileId, analysisSummary, simplified.value, flags.value, questions.value));
  }

  /**
   * A missing or empty reply is decoded as "{}"; when that is the empty
   * object, the report has the default simplified summary, no flags and no
   * questions.
   */
  lemma EmptyReplyDefaults(loads: string -> Option<Json>, content: Option<string>, analysisSummary: string, fileId: string)
    requires content.None? || content.value == ""
    requires loads("{}") == Some(Obj(map[]))
    ensures SimplifyReply(loads, content, analysisSummary, fileId)
         == Success(SimplifiedReport(fileId, analysisSummary, DEFAULT_SUMMARY))
  {
    EmptyObjectTextUnchanged();
    EmptyPayloadReport(analysisSummary, fileId);
  }

  /** A reply in either fence style gives the report the bare JSON text gives. */
  lemma SimplifyIgnoresFences(loads: string -> Option<Json>, x: string, analysisSummary: string, fileId: string)
    requires !StartsWith(Trim(x), FENCE) && !EndsWith(Trim(x), FENCE) && !StartsWith(x, "json") && x != ""
    ensures SimplifyReply(loads, Some(JSON_FENCE + x + FENCE), analysisSummary, fileId)
         == SimplifyReply(loads, Some(x), analysisSummary, fileId)
    ensures SimplifyReply(loads, Some(FENCE + x + FENCE), analysisSummary, fileId)
         == SimplifyReply(loads, Some(x), analysisSummary, fileId)
  {
    var j, b := JSON_FENCE + x + FENCE, FENCE + x + FENCE;
    assert ReplyText(Some(j)) == j && ReplyText(Some(b)) == b && ReplyText(Some(x)) == x;
    ParseIgnoresFences(loads, x);
  }
}
