/**
 * The deterministic part of the report analyser: the raw model reply is
 * stripped of Markdown code fences and decoded, every finding's severity word
 * is normalised to a `SeverityLevel`, and the decoded payload is turned into an
 * `AnalysisResponse` field by field, with defaults. The model call itself is
 * replaced by its reply text, and `json.loads` by the parameter `loads`.
 */
module Analyzer {

  import opened Wrappers
  import opened Exceptions
  import opened Text
  import opened Payload
  import opened Schemas

  // ---------------------------------------------------------------- fences

  const JSON_FENCE: string := "```json"
  const FENCE: string := "```"

  /** The first step: a leading ```json, or else a leading ```, is cut off. */
  function DropOpeningFence(text: string): string {
    if StartsWith(text, JSON_FENCE) then text[|JSON_FENCE|..]
    else if StartsWith(text, FENCE) then text[|FENCE|..]
    else text
  }

  /** The second step: a trailing ``` is cut off. */
  function DropClosingFence(text: string): string {
    if EndsWith(text, FENCE) then text[..|text| - |FENCE|] else text
  }

  /** The text `_parse_ai_response` hands to `json.loads`. */
  function StripCodeFences(responseText: string): (r: string)
    ensures IsTrimmed(r)
    ensures |r| <= |responseText|
  {
    Trim(DropClosingFence(DropOpeningFence(Trim(responseText))))
  }

  /** Every text that starts with ```json starts with ```. */
  lemma JsonFenceIsFence(t: string)
    ensures StartsWith(t, JSON_FENCE) ==> StartsWith(t, FENCE)
  {
    if StartsWith(t, JSON_FENCE) {
      assert t[..3] == t[..7][..3];
    }
  }

  /** Whitespace outside a reply that starts and ends with a backtick makes no difference. */
  lemma StripPadded(p: string, core: string, q: string)
    requires AllSpace(p) && AllSpace(q)
    requires |core| > 0 && core[0] == '`' && core[|core| - 1] == '`'
    ensures StripCodeFences(p + core + q) == StripCodeFences(core)
  {
    TrimPadded(p, core, q);
    TrimTrimmed(core);
  }

  /** Cutting a trailing fence after `x` gives back `x`. */
  lemma DropClosingAfter(x: string)
    ensures DropClosingFence(x + FENCE) == x
  {
    var u := x + FENCE;
    assert u[|u| - |FENCE|..] == FENCE;
    assert u[..|u| - |FENCE|] == x;
  }

  /** A reply wrapped in a ```json fence decodes its inside, trimmed. */
  lemma StripJsonFence(x: string)
    ensures StripCodeFences(JSON_FENCE + x + FENCE) == Trim(x)
  {
    var core := JSON_FENCE + x + FENCE;
    TrimTrimmed(core);
    assert core[..|JSON_FENCE|] == JSON_FENCE;
    assert core[|JSON_FENCE|..] == x + FENCE;
    assert DropOpeningFence(core) == x + FENCE;
    DropClosingAfter(x);
  }

  /** ``` followed by anything that does not start with "json" is not a ```json fence. */
  lemma BareFenceIsNotJsonFence(x: string)
    requires !StartsWith(x, "json")
    ensures !StartsWith(FENCE + x + FENCE, JSON_FENCE)
  {
    var core := FENCE + x + FENCE;
    if |x| >= 4 {
      assert core[..7][3..] == x[..4];
    } else if |core| >= 7 {
      assert core[..7][3 + |x|] == core[3 + |x|] == '`';
    }
  }

  /** A reply wrapped in a bare ``` fence decodes its inside, trimmed, unless the inside starts with "json". */
  lemma StripBareFence(x: string)
    requires !StartsWith(x, "json")
    ensures StripCodeFences(FENCE + x + FENCE) == Trim(x)
  {
    var core := FENCE + x + FENCE;
    TrimTrimmed(core);
    BareFenceIsNotJsonFence(x);
    assert core[..|FENCE|] == FENCE;
    assert core[|FENCE|..] == x + FENCE;
    assert DropOpeningFence(core) == x + FENCE;
    DropClosingAfter(x);
  }

  /** A reply that, once trimmed, neither starts nor ends with ``` is only trimmed. */
  lemma StripUnfenced(s: string)
    requires !StartsWith(Trim(s), FENCE) && !EndsWith(Trim(s), FENCE)
    ensures StripCodeFences(s) == Trim(s)
  {
    JsonFenceIsFence(Trim(s));
    TrimTrimmed(Trim(s));
  }

  /** A closing ``` is removed even when no fence opens the reply. */
  lemma StripClosingFenceOnly(s: string)
    requires !StartsWith(Trim(s), FENCE) && EndsWith(Trim(s), FENCE)
    ensures var t := Trim(s); StripCodeFences(s) == Trim(t[..|t| - |FENCE|])
  {
    var t := Trim(s);
    JsonFenceIsFence(t);
    assert DropOpeningFence(t) == t;
    assert DropClosingFence(t) == t[..|t| - |FENCE|];
  }

  /** `_parse_ai_response`: fence stripping, then `json.loads`, whose failure is a `JSONDecodeError`. */
  function ParseAiResponse(loads: string -> Option<Json>, responseText: string): (r: Result<Json, PyException>)
    ensures r.Failure? ==> r.error == JsonDecodeError
  {
    match loads(StripCodeFences(responseText))
    case Some(payload) => Success(payload)
    case None => Failure(JsonDecodeError)
  }

  /**
   * The text `_parse_ai_response` decodes, computed as the code does: one
   * local, reassigned step by step.
   */
  method CleanReply(responseText: string) returns (text: string)
    ensures text == StripCodeFences(responseText)
  {
    text := Trim(responseText);
    ghost var trimmed := text;
    assert |JSON_FENCE| == 7 && |FENCE| == 3;
    if StartsWith(text, JSON_FENCE) {
      text := text[7..];
    } else if StartsWith(text, FENCE) {
      text := text[3..];
    }
    assert text == DropOpeningFence(trimmed);
    ghost var unfenced := text;
    if EndsWith(text, FENCE) {
      text := text[..|text| - 3];
    }
    assert text == DropClosingFence(unfenced);
    text := Trim(text);
  }

  /**
   * Whichever fence style the model uses, or none, the reply decodes to what
   * its JSON text decodes to: the text is anything that, trimmed, neither
   * starts nor ends with ``` (and does not start with "json", which no JSON
   * text does).
   */
  lemma ParseIgnoresFences(loads: string -> Option<Json>, x: string)
    requires !StartsWith(Trim(x), FENCE) && !EndsWith(Trim(x), FENCE) && !StartsWith(x, "json")
    ensures ParseAiResponse(loads, x) == (if loads(Trim(x)).Some? then Success(loads(Trim(x)).value) else Failure(JsonDecodeError))
    ensures ParseAiResponse(loads, JSON_FENCE + x + FENCE) == ParseAiResponse(loads, x)
    ensures ParseAiResponse(loads, FENCE + x + FENCE) == ParseAiResponse(loads, x)
  {
    StripUnfenced(x);
    StripJsonFence(x);
    StripBareFence(x);
  }

  // -------------------------------------------------------------- severity

  /** An ordered table of severity synonyms: a Python `dict` literal, whose order is its iteration order. */
  type SynonymTable = seq<(string, SeverityLevel)>

  /** The 24 synonyms `_normalize_severity` knows, in their listed order. */
  const SEVERITY_SYNONYMS: SynonymTable := [
    ("borderline", Low),
    ("slightly elevated", Low),
    ("slightly low", Low),
    ("elevated", Medium),
    ("abnormal", Medium),
    ("mildly abnormal", Low),
    ("moderately abnormal", Medium),
    ("severely abnormal", High),
    ("moderate", Medium),
    ("mild", Low),
    ("severe", High),
    ("very high", Critical),
    ("very low", High),
    ("extremely high", Critical),
    ("extremely low", Critical),
    ("out of range", Medium),
    ("within range", Normal),
    ("within normal limits", Normal),
    ("ok", Normal),
    ("fine", Normal),
    ("good", Normal),
    ("warning", Medium),
    ("danger", High),
    ("urgent", Critical)
  ]

  predicate DistinctKeys(table: SynonymTable) {
    forall i, j | 0 <= i < j < |table| :: table[i].0 != table[j].0
  }

  /** `table.get(key)`: exact lookup. */
  function Lookup(table: SynonymTable, key: string): (r: Option<SeverityLevel>)
    ensures r.None? <==> forall i | 0 <= i < |table| :: table[i].0 != key
    ensures r.Some? ==> exists i | 0 <= i < |table| :: table[i] == (key, r.value)
    decreases |table|
  {
    if table == [] then None
    else if table[0].0 == key then Some(table[0].1)
    else
      var r := Lookup(table[1..], key);
      assert forall i | 1 <= i < |table| :: table[1..][i - 1] == table[i];
      r
  }

  /** In a table without repeated keys, every key looks up its own level. */
  lemma {:induction false} LookupKey(table: SynonymTable, i: nat)
    requires DistinctKeys(table) && i < |table|
    ensures Lookup(table, table[i].0) == Some(table[i].1)
    decreases i
  {
    if i > 0 {
      assert table[1..][i - 1] == table[i];
      assert DistinctKeys(table[1..]) by {
        forall a, b | 0 <= a < b < |table| - 1 ensures table[1..][a].0 != table[1..][b].0 {
          assert table[1..][a] == table[a + 1] && table[1..][b] == table[b + 1];
        }
      }
      LookupKey(table[1..], i - 1);
      assert table[0].0 != table[i].0;
    }
  }

  /** `raw.lower().strip()`. */
  function Clean(raw: string): string {
    Trim(Lower(raw))
  }

  /** The fuzzy test of `_normalize_severity`: `key in s or s in key`. */
  predicate Related(key: string, s: string) {
    IsSubstring(key, s) || IsSubstring(s, key)
  }

  /** The position of the first entry, in table order, whose key is related to `s`. */
  function FirstRelated(table: SynonymTable, s: string): (r: Option<nat>)
    ensures r.None? <==> forall i | 0 <= i < |table| :: !Related(table[i].0, s)
    ensures r.Some? ==>
      && r.value < |table| && Related(table[r.value].0, s)
      && forall j | 0 <= j < r.value :: !Related(table[j].0, s)
    decreases |table|
  {
    if table == [] then None
    else if Related(table[0].0, s) then Some(0)
    else
      var r := FirstRelated(table[1..], s);
      assert forall i | 1 <= i < |table| :: table[1..][i - 1] == table[i];
      if r.Some? then Some(r.value + 1) else None
  }

  /**
   * `_normalize_severity` over an ordered synonym table: lowercase and trim;
   * then the level of that name; then the synonym with exactly that key; then
   * the first synonym related to it by substring in either direction; else
   * `Low`.
   */
  function NormalizeSeverityIn(table: SynonymTable, raw: string): (r: SeverityLevel)
    ensures SeverityFromValue(Clean(raw)).Some? ==> r == SeverityFromValue(Clean(raw)).value
    ensures r == Low || SeverityFromValue(Clean(raw)) == Some(r) || exists i | 0 <= i < |table| :: table[i].1 == r
  {
    var s := Clean(raw);
    match SeverityFromValue(s)
    case Some(level) => level
    case None =>
      match Lookup(table, s)
      case Some(level) => level
      case None =>
        match FirstRelated(table, s)
        case Some(i) => table[i].1
        case None => Low
  }

  /** `_normalize_severity`, with its own 24-entry table. */
  function NormalizeSeverity(raw: string): SeverityLevel {
    NormalizeSeverityIn(SEVERITY_SYNONYMS, raw)
  }

  /** No key of the synonym table is repeated, as in any `dict`. */
  lemma SynonymKeysDistinct()
    ensures DistinctKeys(SEVERITY_SYNONYMS)
  {
    SynonymKeysDistinctFrom(0, 4);
    SynonymKeysDistinctFrom(4, 9);
    SynonymKeysDistinctFrom(9, 15);
    SynonymKeysDistinctFrom(15, 24);
  }

  /** The keys at positions `lo` to `hi - 1` occur nowhere later in the table. */
  lemma SynonymKeysDistinctFrom(lo: nat, hi: nat)
    requires (lo, hi) in {(0, 4), (4, 9), (9, 15), (15, 24)}
    ensures forall i, j | lo <= i < hi && i < j < |SEVERITY_SYNONYMS| ::
      SEVERITY_SYNONYMS[i].0 != SEVERITY_SYNONYMS[j].0
  {
  }

  /** A table key is lower-case, trimmed and not itself a level name. */
  predicate IsPlainKey(key: string) {
    && |key| > 0 && key[0] != ' ' && key[|key| - 1] != ' '
    && (forall c | c in key :: 'a' <= c <= 'z' || c == ' ')
    && SeverityFromValue(key).None?
  }

  /** Cleaning leaves a plain key as it is. */
  lemma PlainKeyClean(key: string)
    requires IsPlainKey(key)
    ensures Clean(key) == key
  {
    assert forall i | 0 <= i < |key| :: !IsUpper(key[i]) by {
      forall i | 0 <= i < |key| ensures !IsUpper(key[i]) {
        assert key[i] in key;
      }
    }
    LowerNoUpper(key);
    assert key[0] in key && key[|key| - 1] in key;
    TrimTrimmed(key);
  }

  /** Every key of the synonym table is a plain key. */
  lemma SynonymKeysPlain()
    ensures forall i | 0 <= i < |SEVERITY_SYNONYMS| :: IsPlainKey(SEVERITY_SYNONYMS[i].0)
  {
    SynonymKeysPlainFrom0();
    SynonymKeysPlainFrom6();
    SynonymKeysPlainFrom12();
    SynonymKeysPlainFrom18();
  }

  /** The keys at positions 0 to 5 are plain. */
  lemma SynonymKeysPlainFrom0()
    ensures forall i | 0 <= i < 6 :: IsPlainKey(SEVERITY_SYNONYMS[i].0)
  {
  }

  /** The keys at positions 6 to 11 are plain. */
  lemma SynonymKeysPlainFrom6()
    ensures forall i | 6 <= i < 12 :: IsPlainKey(SEVERITY_SYNONYMS[i].0)
  {
  }

  /** The keys at positions 12 to 17 are plain. */
  lemma SynonymKeysPlainFrom12()
    ensures forall i | 12 <= i < 18 :: IsPlainKey(SEVERITY_SYNONYMS[i].0)
  {
  }

  /** The keys at positions 18 to 23 are plain. */
  lemma SynonymKeysPlainFrom18()
    ensures forall i | 18 <= i < 24 :: IsPlainKey(SEVERITY_SYNONYMS[i].0)
  {
  }

  /** Cleaning twice is cleaning once. */
  lemma CleanIdempotent(raw: string)
    ensures Clean(Clean(raw)) == Clean(raw)
  {
    TrimKeepsLower(raw);
    TrimIdempotent(Lower(raw));
  }

  /** The level depends only on the input lowercased and trimmed, whatever the table. */
  lemma NormalizeUsesCleanInputOnly(table: SynonymTable, raw: string)
    ensures NormalizeSeverityIn(table, raw) == NormalizeSeverityIn(table, Clean(raw))
  {
    CleanIdempotent(raw);
  }

  /** A level's own name is lower-case and trimmed. */
  lemma LevelNamePlain(level: SeverityLevel)
    ensures Lower(level.Value()) == level.Value() && IsTrimmed(level.Value())
  {
    LowerNoUpper(level.Value());
  }

  /**
   * A level's name in any letter case, with any whitespace around it,
   * normalises to that level (" High " is `High`), whatever the table.
   */
  lemma NormalizePaddedName(table: SynonymTable, p: string, name: string, q: string, level: SeverityLevel)
    requires AllSpace(p) && AllSpace(q) && Lower(name) == level.Value()
    ensures NormalizeSeverityIn(table, p + name + q) == level
  {
    LowerConcat(p + name, q);
    LowerConcat(p, name);
    LowerKeepsSpace(p);
    LowerKeepsSpace(q);
    LevelNamePlain(level);
    TrimPadded(Lower(p), level.Value(), Lower(q));
    EnumValuesRoundTrip();
  }

  /** Normalising the name of a level gives back that level, whatever the table. */
  lemma NormalizeRoundTrip(table: SynonymTable, level: SeverityLevel)
    ensures NormalizeSeverityIn(table, level.Value()) == level
  {
    LevelNamePlain(level);
    NormalizePaddedName(table, "", level.Value(), "", level);
    assert "" + level.Value() + "" == level.Value();
  }

  /** In a table without repeated keys, a plain key normalises to its own level. */
  lemma NormalizeKey(table: SynonymTable, i: nat)
    requires DistinctKeys(table) && i < |table| && IsPlainKey(table[i].0)
    ensures NormalizeSeverityIn(table, table[i].0) == table[i].1
  {
    PlainKeyClean(table[i].0);
    LookupKey(table, i);
  }

  /** `FirstRelated` finds the related entry that no earlier entry precedes. */
  lemma FirstRelatedAt(table: SynonymTable, s: string, k: nat)
    requires k < |table| && Related(table[k].0, s)
    requires forall j | 0 <= j < k :: !Related(table[j].0, s)
    ensures FirstRelated(table, s) == Some(k)
  {
  }

  /**
   * A string that is no level name and no key takes the level of the first
   * key, in table order, that it contains or is contained in.
   */
  lemma NormalizeFirstRelated(table: SynonymTable, raw: string, k: nat)
    requires SeverityFromValue(Clean(raw)).None?
    requires forall i | 0 <= i < |table| :: table[i].0 != Clean(raw)
    requires k < |table| && Related(table[k].0, Clean(raw))
    requires forall j | 0 <= j < k :: !Related(table[j].0, Clean(raw))
    ensures NormalizeSeverityIn(table, raw) == table[k].1
  {
    FirstRelatedAt(table, Clean(raw), k);
  }

  /** A string that is no level name and related to no key normalises to `Low`. */
  lemma NormalizeUnrelated(table: SynonymTable, raw: string)
    requires SeverityFromValue(Clean(raw)).None?
    requires forall i | 0 <= i < |table| :: !Related(table[i].0, Clean(raw))
    ensures NormalizeSeverityIn(table, raw) == Low
  {
    SubstringOfItself(Clean(raw));
  }

  /**
   * A blank string cleans to the empty string, which is no level name, no
   * non-empty key, and is in every key: it takes the level of the first entry.
   */
  lemma NormalizeBlankIn(table: SynonymTable, raw: string)
    requires AllSpace(raw)
    requires |table| > 0 && forall i | 0 <= i < |table| :: |table[i].0| > 0
    ensures NormalizeSeverityIn(table, raw) == table[0].1
  {
    LowerKeepsSpace(raw);
    TrimEmptyIffAllSpace(Lower(raw));
    assert StartsWith(table[0].0, Clean(raw));
    FirstRelatedAt(table, Clean(raw), 0);
  }

  // ------------------------------------------------ the table of `_normalize_severity`

  /** Every synonym in the table normalises to its own level. */
  lemma NormalizeSynonyms()
    ensures forall i | 0 <= i < |SEVERITY_SYNONYMS| ::
      NormalizeSeverity(SEVERITY_SYNONYMS[i].0) == SEVERITY_SYNONYMS[i].1
  {
    SynonymKeysPlain();
    SynonymKeysDistinct();
    forall i | 0 <= i < |SEVERITY_SYNONYMS|
      ensures NormalizeSeverity(SEVERITY_SYNONYMS[i].0) == SEVERITY_SYNONYMS[i].1
    {
      NormalizeKey(SEVERITY_SYNONYMS, i);
    }
  }

  /** An empty or whitespace-only severity is `Low`, the level of "borderline". */
  lemma NormalizeBlank(raw: string)
    requires AllSpace(raw)
    ensures NormalizeSeverity(raw) == Low
  {
    SynonymKeysPlain();
    NormalizeBlankIn(SEVERITY_SYNONYMS, raw);
  }

  /** Characters that tell the first four keys apart from strings with an 'm' but no 'e' and no 'w'. */
  lemma FirstFourKeyChars()
    ensures 'e' in SEVERITY_SYNONYMS[0].0 && 'm' !in SEVERITY_SYNONYMS[0].0
    ensures 'e' in SEVERITY_SYNONYMS[1].0 && 'm' !in SEVERITY_SYNONYMS[1].0
    ensures 'w' in SEVERITY_SYNONYMS[2].0 && 'm' !in SEVERITY_SYNONYMS[2].0
    ensures 'e' in SEVERITY_SYNONYMS[3].0 && 'm' !in SEVERITY_SYNONYMS[3].0
  {
  }

  /** Neither of two strings is in the other when each has a character the other lacks. */
  lemma UnrelatedByChars(key: string, s: string, c: char, d: char)
    requires c in key && c !in s && d in s && d !in key
    ensures !Related(key, s)
  {
    NotSubstringByChar(key, s, c);
    NotSubstringByChar(s, key, d);
  }

  /**
   * A string with an 'm' but no 'e' and no 'w' is related to none of the
   * first four keys ("borderline", "slightly elevated", "slightly low",
   * "elevated").
   */
  lemma UnrelatedToFirstFour(s: string)
    requires 'e' !in s && 'w' !in s && 'm' in s
    ensures forall j | 0 <= j < 4 :: !Related(SEVERITY_SYNONYMS[j].0, s)
  {
    FirstFourKeyChars();
    UnrelatedByChars(SEVERITY_SYNONYMS[0].0, s, 'e', 'm');
    UnrelatedByChars(SEVERITY_SYNONYMS[1].0, s, 'e', 'm');
    UnrelatedByChars(SEVERITY_SYNONYMS[2].0, s, 'w', 'm');
    UnrelatedByChars(SEVERITY_SYNONYMS[3].0, s, 'e', 'm');
  }

  /** The fifth and sixth entries. */
  lemma AbnormalEntries()
    ensures SEVERITY_SYNONYMS[4] == ("abnormal", Medium)
    ensures SEVERITY_SYNONYMS[5] == ("mildly abnormal", Low)
  {
  }

  /** "slightly abnormal" is already clean, and is neither a level name nor a key. */
  lemma SlightlyAbnormalIsNoKey()
    ensures Clean("slightly abnormal") == "slightly abnormal"
    ensures SeverityFromValue("slightly abnormal").None?
    ensures forall i | 0 <= i < |SEVERITY_SYNONYMS| :: SEVERITY_SYNONYMS[i].0 != "slightly abnormal"
  {
    assert IsPlainKey("slightly abnormal");
    PlainKeyClean("slightly abnormal");
  }

  /** "slightly abnormal" is no key; the first key related to it is "abnormal", so it is `Medium`. */
  lemma NormalizeSlightlyAbnormal()
    ensures NormalizeSeverity("slightly abnormal") == Medium
  {
    SlightlyAbnormalIsNoKey();
    SlightlyAbnormalContainsAbnormal();
    NormalizeViaAbnormal("slightly abnormal");
  }

  /**
   * A clean input that is no level name and no key, has no "e" or "w" but an
   * "m", and is related to "abnormal" gets `Medium` from the fifth entry.
   */
  lemma NormalizeViaAbnormal(s: string)
    requires Clean(s) == s && SeverityFromValue(s).None?
    requires forall i | 0 <= i < |SEVERITY_SYNONYMS| :: SEVERITY_SYNONYMS[i].0 != s
    requires 'e' !in s && 'w' !in s && 'm' in s
    requires Related(SEVERITY_SYNONYMS[4].0, s)
    ensures NormalizeSeverity(s) == Medium
  {
    UnrelatedToFirstFour(s);
    AbnormalEntries();
    NormalizeFirstRelated(SEVERITY_SYNONYMS, s, 4);
  }

  /** The fifth key, "abnormal", occurs in "slightly abnormal". */
  lemma SlightlyAbnormalContainsAbnormal()
    ensures Related(SEVERITY_SYNONYMS[4].0, "slightly abnormal")
  {
    AbnormalEntries();
    assert OccursAt("abnormal", "slightly abnormal", 9);
    SubstringAt("abnormal", "slightly abnormal", 9);
  }

  /**
   * "mildly abnormal" contains the earlier key "abnormal", which the substring
   * step would pick (`Medium`); the exact lookup comes first and gives `Low`.
   */
  lemma MildlyAbnormalExactFirst()
    ensures FirstRelated(SEVERITY_SYNONYMS, "mildly abnormal") == Some(4)
    ensures NormalizeSeverity("mildly abnormal") == Low
  {
    var s := "mildly abnormal";
    UnrelatedToFirstFour(s);
    AbnormalEntries();
    assert OccursAt(SEVERITY_SYNONYMS[4].0, s, 7);
    SubstringAt(SEVERITY_SYNONYMS[4].0, s, 7);
    FirstRelatedAt(SEVERITY_SYNONYMS, s, 4);
    NormalizeSynonyms();
  }

  /** " High " normalises to `High` whatever the table, the 24-entry one included. */
  lemma NormalizeSpacedHigh(table: SynonymTable)
    ensures NormalizeSeverityIn(table, " High ") == High
  {
    assert " " + "High" + " " == " High ";
    assert Lower("High") == "high";
    NormalizePaddedName(table, " ", "High", " ", High);
  }

  // -------------------------------------------------------------- builders

  const DEFAULT_SUMMARY: string := "Analysis complete."

  /** The fields of one finding that would make building it raise, when none does. */
  predicate WellFormedFinding(f: Json) {
    && f.Obj?
    && StrOrAbsent(f.fields, "status")
    && StrOrAbsent(f.fields, "parameter")
    && StrOrAbsent(f.fields, "value")
    && OptStrOrAbsent(f.fields, "unit")
    && OptStrOrAbsent(f.fields, "reference_range")
    && OptStrOrAbsent(f.fields, "interpretation")
  }

  /**
   * The record one finding's fields make, given its normalised status: each
   * field of the wrong type fails pydantic's check.
   */
  function FindingOf(m: map<string, Json>, status: SeverityLevel): (r: Result<Finding, PyException>)
    ensures r.Success? <==>
      && StrOrAbsent(m, "parameter") && StrOrAbsent(m, "value")
      && OptStrOrAbsent(m, "unit") && OptStrOrAbsent(m, "reference_range") && OptStrOrAbsent(m, "interpretation")
    ensures r.Failure? ==> r.error == ValidationError
    ensures r.Success? ==>
      r.value == Finding(
        StrOr(m, "parameter", "Unknown"), StrOr(m, "value", "N/A"),
        OptStrOf(m, "unit"), OptStrOf(m, "reference_range"), status, OptStrOf(m, "interpretation"))
  {
    var parameter :- AsStr(Get(m, "parameter", Str("Unknown")));
    var value :- AsStr(Get(m, "value", Str("N/A")));
    var unit :- AsOptionalStr(Get(m, "unit", Null));
    var referenceRange :- AsOptionalStr(Get(m, "reference_range", Null));
    var interpretation :- AsOptionalStr(Get(m, "interpretation", Null));
    Success(Finding(parameter, value, unit, referenceRange, status, interpretation))
  }

  /**
   * One iteration of the findings loop of `_build_analysis_response`. A
   * non-object has no `.get`, and a non-string status no `.lower`: both raise
   * `AttributeError` before the record is built.
   */
  function FindingFrom(f: Json): (r: Result<Finding, PyException>)
    ensures r.Success? <==> WellFormedFinding(f)
    ensures r.Failure? ==>
      r.error == (if f.Obj? && StrOrAbsent(f.fields, "status") then ValidationError else AttributeError)
    ensures r.Success? ==>
      r.value == FindingOf(f.fields, NormalizeSeverity(StrOr(f.fields, "status", "normal"))).value
  {
    if !f.Obj? then Failure(AttributeError)
    else
      var status := Get(f.fields, "status", Str("normal"));
      if !status.Str? then Failure(AttributeError)
      else FindingOf(f.fields, NormalizeSeverity(status.s))
  }

  /** `ReportType(x)` with `GENERAL` on `ValueError`: only an exact member value is kept. */
  function ReportTypeFrom(v: Json): (r: ReportType)
    ensures r != General ==> v == Str(r.Value())
  {
    if v.Str? then ReportTypeFromValue(v.s).GetOr(General) else General
  }

  /**
   * The `findings` values the loop gets through: a list of well-formed
   * findings, or an empty string or object, which the loop never enters.
   */
  predicate WellFormedFindings(v: Json) {
    match v
    case Arr(items) => forall i | 0 <= i < |items| :: WellFormedFinding(items[i])
    case Str(s) => s == []
    case Obj(m) => m == map[]
    case _ => false
  }

  /** The payload shapes for which `_build_analysis_response` returns a response. */
  predicate WellFormedAnalysis(result: Json) {
    && result.Obj?
    && WellFormedFindings(Get(result.fields, "findings", Arr([])))
    && StrOrAbsent(result.fields, "summary")
    && (("medical_terms" in result.fields) ==> IsStrList(result.fields["medical_terms"]))
  }

  /**
   * `_build_analysis_response`, as a function of the decoded payload: the
   * findings converted in order, the report type, the summary, the medical
   * terms, and the identifier and raw text passed in.
   */
  function AnalysisFrom(result: Json, fileId: string, rawText: Option<string>): (r: Result<AnalysisResponse, PyException>)
  {
    if !result.Obj? then Failure(AttributeError)
    else
      var m := result.fields;
      var elems :- Elements(Get(m, "findings", Arr([])));
      var findings :- MapAll(FindingFrom, elems);
      var reportType := ReportTypeFrom(Get(m, "report_type", Str("general")));
      var summary :- AsStr(Get(m, "summary", Str(DEFAULT_SUMMARY)));
      var medicalTerms :- AsStrList(Get(m, "medical_terms", Arr([])));
      Success(AnalysisResponse(fileId, summary, reportType, findings, medicalTerms, rawText))
  }

  /** `_build_analysis_response`, step by step. */
  method BuildAnalysisResponse(result: Json, fileId: string, rawText: Option<string>)
    returns (r: Result<AnalysisResponse, PyException>)
    ensures r == AnalysisFrom(result, fileId, rawText)
  {
    if !result.Obj? {
      return Failure(AttributeError);
    }
    var m := result.fields;
    var elems := Elements(Get(m, "findings", Arr([])));
    if elems.Failure? {
      return Failure(elems.error);
    }
    var findings := AppendEach(FindingFrom, elems.value);
    if findings.Failure? {
      return Failure(findings.error);
    }
    var reportType := ReportTypeFrom(Get(m, "report_type", Str("general")));
    var summary := AsStr(Get(m, "summary", Str(DEFAULT_SUMMARY)));
    if summary.Failure? {
      return Failure(summary.error);
    }
    var medicalTerms := AsStrList(Get(m, "medical_terms", Arr([])));
    if medicalTerms.Failure? {
      return Failure(medicalTerms.error);
    }
    r := Success(AnalysisResponse(fileId, summary.value, reportType, findings.value, medicalTerms.value, rawText));
  }

  /** The loop over `findings` gets through exactly the well-formed values. */
  lemma FindingsLoopSucceedsIff(v: Json)
    ensures (Elements(v).Success? && MapAll(FindingFrom, Elements(v).value).Success?) <==> WellFormedFindings(v)
  {
    if v.Str? && |v.s| > 0 {
      assert !FindingFrom(Elements(v).value[0]).Success?;
    }
  }

  /** `_build_analysis_response` returns a response exactly for the well-formed payloads, and otherwise raises. */
  lemma AnalysisSucceedsIff(result: Json, fileId: string, rawText: Option<string>)
    ensures AnalysisFrom(result, fileId, rawText).Success? <==> WellFormedAnalysis(result)
  {
    if result.Obj? {
      FindingsLoopSucceedsIff(Get(result.fields, "findings", Arr([])));
    }
  }

  /**
   * A response carries the file identifier and raw text passed in, the exact
   * report type or `General`, the summary or "Analysis complete.", the
   * medical terms or none, and one finding per element of `findings`, in
   * order, none when the key is absent.
   */
  lemma AnalysisFields(result: Json, fileId: string, rawText: Option<string>)
    requires AnalysisFrom(result, fileId, rawText).Success?
    ensures var r := AnalysisFrom(result, fileId, rawText).value; var m := result.fields;
      && r.fileId == fileId && r.rawText == rawText
      && r.reportType == ReportTypeFrom(Get(m, "report_type", Str("general")))
      && StrOrAbsent(m, "summary") && r.summary == StrOr(m, "summary", DEFAULT_SUMMARY)
      && ("medical_terms" !in m ==> r.medicalTerms == [])
      && ("medical_terms" in m ==>
            && |r.medicalTerms| == |m["medical_terms"].items|
            && forall i | 0 <= i < |r.medicalTerms| :: m["medical_terms"].items[i] == Str(r.medicalTerms[i]))
      && ("findings" !in m ==> r.findings == [])
      && ("findings" in m && m["findings"].Arr? ==>
            && |r.findings| == |m["findings"].items|
            && forall i | 0 <= i < |r.findings| :: FindingFrom(m["findings"].items[i]) == Success(r.findings[i]))
  {
    var m := result.fields;
    var elems := Elements(Get(m, "findings", Arr([])));
    assert elems.Success?;
    assert MapAll(FindingFrom, elems.value).Success?;
  }

  /** The report type is kept only on an exact, case-sensitive match of a member's value. */
  lemma ReportTypeExact()
    ensures forall t: ReportType :: ReportTypeFrom(Str(t.Value())) == t
    ensures ReportTypeFrom(Str("Lab_Test")) == General
    ensures forall v: Json :: !v.Str? ==> ReportTypeFrom(v) == General
  {
    EnumValuesRoundTrip();
  }

  /** A status of "normal", the default, is `Normal`. */
  lemma NormalizeDefaultStatus()
    ensures NormalizeSeverity("normal") == Normal
  {
    NormalizeRoundTrip(SEVERITY_SYNONYMS, Normal);
  }

  /** A finding without fields gets every default. */
  lemma FindingDefaults()
    ensures FindingFrom(Obj(map[])) == Success(Finding("Unknown", "N/A"))
  {
    NormalizeDefaultStatus();
  }

  /** A finding whose status is absent or "normal" is built with status `Normal`. */
  lemma FindingWithNormalStatus(f: Json)
    requires f.Obj? && StrOrAbsent(f.fields, "status") && StrOr(f.fields, "status", "normal") == "normal"
    ensures FindingFrom(f) == FindingOf(f.fields, Normal)
  {
    NormalizeDefaultStatus();
  }

  /** `{"parameter": p}` is a finding named p with value "N/A", status `Normal` and no unit. */
  lemma ParameterOnlyFinding(p: string)
    ensures FindingFrom(Obj(map["parameter" := Str(p)])) == Success(Finding(p, "N/A"))
  {
    var m := map["parameter" := Str(p)];
    assert "status" !in m && "value" !in m && "unit" !in m;
    assert "reference_range" !in m && "interpretation" !in m;
    FindingWithNormalStatus(Obj(m));
  }

  /** An empty payload builds a response with every default. */
  lemma EmptyPayloadDefaults(fileId: string, rawText: Option<string>)
    ensures AnalysisFrom(Obj(map[]), fileId, rawText)
         == Success(AnalysisResponse(fileId, DEFAULT_SUMMARY, General, [], [], rawText))
  {
    assert AsStrList(Arr([])) == Success([]);
  }

  /**
   * A finding that gives parameter, value, unit and a `normal` status, once
   * that status is normalised (`FindingWithNormalStatus`).
   */
  lemma MeasuredFinding(p: string, v: string, u: string)
    ensures FindingOf(map["parameter" := Str(p), "value" := Str(v), "unit" := Str(u), "status" := Str("normal")], Normal)
         == Success(Finding(p, v, Some(u)))
  {
  }

  /** A payload whose one finding builds, with a summary and no medical terms, is a response with that finding. */
  lemma OneFindingResponse(m: map<string, Json>, f: Json, summary: string, fileId: string, rawText: Option<string>)
    requires FindingFrom(f).Success?
    requires Get(m, "findings", Arr([])) == Arr([f])
    requires Get(m, "summary", Str(DEFAULT_SUMMARY)) == Str(summary)
    requires "medical_terms" !in m
    ensures AnalysisFrom(Obj(m), fileId, rawText)
         == Success(AnalysisResponse(fileId, summary, ReportTypeFrom(Get(m, "report_type", Str("general"))),
                                     [FindingFrom(f).value], [], rawText))
  {
    MapAllSingleton(FindingFrom, f);
    assert AsStrList(Arr([])) == Success([]);
  }

  // --------------------------------------------------------- entry points

  /** What a reply becomes: decoded, then built into a response. */
  function AnalyzeReply(loads: string -> Option<Json>, reply: string, fileId: string, rawText: Option<string>)
    : Result<AnalysisResponse, PyException>
  {
    var result :- ParseAiResponse(loads, reply);
    AnalysisFrom(result, fileId, rawText)
  }

  /** The deterministic part of `analyze_text_report`: the model's reply stands in for the call. */
  method AnalyzeTextReport(loads: string -> Option<Json>, reply: string, reportText: string, fileId: string)
    returns (r: Result<AnalysisResponse, PyException>)
    ensures r == AnalyzeReply(loads, reply, fileId, Some(reportText))
  {
    var text := CleanReply(reply);
    var result := loads(text);
    if result.None? {
      return Failure(JsonDecodeError);
    }
    r := BuildAnalysisResponse(result.value, fileId, Some(reportText));
  }

  /** The deterministic part of `analyze_image_report`; no raw text is passed on. */
  method AnalyzeImageReport(loads: string -> Option<Json>, reply: string, fileId: string)
    returns (r: Result<AnalysisResponse, PyException>)
    ensures r == AnalyzeReply(loads, reply, fileId, None)
  {
    var text := CleanReply(reply);
    var result := loads(text);
    if result.None? {
      return Failure(JsonDecodeError);
    }
    r := BuildAnalysisResponse(result.value, fileId, None);
  }

  /**
   * A reply that does not decode fails with `JSONDecodeError`; one that does
   * and builds carries the identifier and raw text passed in: the report text
   * on the text path, none on the image path.
   */
  lemma AnalyzeReplyOutcome(loads: string -> Option<Json>, reply: string, fileId: string, rawText: Option<string>)
    ensures loads(StripCodeFences(reply)).None? ==> AnalyzeReply(loads, reply, fileId, rawText) == Failure(JsonDecodeError)
    ensures AnalyzeReply(loads, reply, fileId, rawText).Success? ==>
      && AnalyzeReply(loads, reply, fileId, rawText).value.fileId == fileId
      && AnalyzeReply(loads, reply, fileId, rawText).value.rawText == rawText
  {
    if AnalyzeReply(loads, reply, fileId, rawText).Success? {
      AnalysisFields(loads(StripCodeFences(reply)).value, fileId, rawText);
    }
  }

  /** A reply wrapped in either fence style analyses as the bare JSON text does. */
  lemma AnalyzeIgnoresFences(loads: string -> Option<Json>, x: string, fileId: string, rawText: Option<string>)
    requires !StartsWith(Trim(x), FENCE) && !EndsWith(Trim(x), FENCE) && !StartsWith(x, "json")
    ensures AnalyzeReply(loads, JSON_FENCE + x + FENCE, fileId, rawText) == AnalyzeReply(loads, x, fileId, rawText)
    ensures AnalyzeReply(loads, FENCE + x + FENCE, fileId, rawText) == AnalyzeReply(loads, x, fileId, rawText)
  {
    ParseIgnoresFences(loads, x);
  }
}
