/**
 * The governance stage end to end: pick the working record out of the
 * envelope, extract the raw name and the search text, normalize the name,
 * classify the text, and compose the output record; any exception on the way
 * turns into the fixed fail-safe record instead.
 *
 * The host's input object, the wall clock and the engine's wording of an
 * exception are parameters: the root record, a timestamp string, and a
 * function `describe` from the fault to its message.
 */
module Governance {
  import opened Values
  import opened Strings
  import opened Normalizer
  import opened Classifier

  const UnknownEntity := "Unknown Entity"
  const LogicVersion := "v1.2.0"
  const SystemErrorReason := "SYSTEM ERROR: Script execution failed. Manual review required."

  /** The value the raw name is taken from: the first truthy of `company_name`
      and `company`, else "Unknown Entity". */
  function NameSource(data: Value): Value
  {
    FirstTruthy([FieldOf(data, CompanyName), FieldOf(data, Company)], Str(UnknownEntity))
  }

  /** The value the search text is taken from: the first truthy of
      `news_summary` and `description`, else the empty string. */
  function TextSource(data: Value): Value
  {
    FirstTruthy([FieldOf(data, NewsSummary), FieldOf(data, Description)], Str(""))
  }

  /** `root.body || root`: the envelope's `body` when it is truthy, otherwise
      the root itself; reading `body` of null or undefined throws. */
  function WorkingRecord(root: Value): (r: Result<Value>)
    ensures r.Err? <==> Nullish(root)
    ensures r.Ok? ==> r.value == FirstTruthy([FieldOf(root, Body)], root)
    ensures r.Ok? ==> !Nullish(r.value)
  {
    var body :- Get(root, Body);
    Ok(Or(body, root))
  }

  /** `data.company_name || data.company || "Unknown Entity"`. */
  function RawName(data: Value): (r: Result<Value>)
    ensures r.Err? <==> Nullish(data)
    ensures r.Ok? ==> r.value == NameSource(data) && Truthy(r.value)
  {
    var name :- Get(data, CompanyName);
    if Truthy(name) then Ok(name)
    else
      // `data` was read once already, so this read cannot throw.
      var company := Get(data, Company).value;
      OrChainOfTwo(name, company, Str(UnknownEntity));
      Ok(Or(company, Str(UnknownEntity)))
  }

  /** `(data.news_summary || data.description || "").toLowerCase()`: throws
      when the value chosen is not a string. */
  function SearchText(data: Value): (r: Result<string>)
    ensures r.Err? <==> Nullish(data) || !TextSource(data).Str?
    ensures r.Ok? ==> r.value == ToLowerCase(TextSource(data).s)
  {
    var summary :- Get(data, NewsSummary);
    var description := Get(data, Description).value;
    var text := Or(Or(summary, description), Str(""));
    OrChainOfTwo(summary, description, Str(""));
    match text
    case Str(s) => Ok(ToLowerCase(s))
    case _ => Err(NotAFunction("toLowerCase"))
  }

  /** `rawName.replace(...).trim()`: throws when the raw name is not a string. */
  function CleanName(rawName: Value): (r: Result<string>)
    ensures r.Err? <==> !rawName.Str?
    ensures r.Ok? ==> r.value == NormalizeName(rawName.s)
  {
    match rawName
    case Str(s) => Ok(NormalizeName(s))
    case _ => Err(NotAFunction("replace"))
  }

  /** The `_meta` block of a successful run. */
  function MetaBlock(cleanName: string, verdict: Verdict, timestamp: string): Value
  {
    Obj(map[
      "normalized_name" := Str(cleanName),
      "governance_status" := Str(verdict.status),
      "governance_reason" := Str(verdict.reason),
      "logic_version" := Str(LogicVersion),
      "processed_at" := Str(timestamp)
    ])
  }

  /** `{ ...data, _meta: {...} }`: the working record's own entries, with
      `_meta` added or overwritten. */
  function SuccessRecord(data: Value, cleanName: string, verdict: Verdict, timestamp: string): Value
  {
    Obj(OwnEntries(data)["_meta" := MetaBlock(cleanName, verdict, timestamp)])
  }

  /** The record returned from the `catch` block. */
  function FailSafeRecord(message: string): Value
  {
    Obj(map[
      "error" := Bool(true),
      "message" := Str(message),
      "governance_status" := Str(Quarantine),
      "governance_reason" := Str(SystemErrorReason)
    ])
  }

  /** The body of the `try` block, as a value or the exception it throws. */
  function Run(root: Value, timestamp: string): Result<Value>
  {
    var data :- WorkingRecord(root);
    // The working record is never null or undefined, so reading its name
    // fields cannot throw.
    var rawName := RawName(data).value;
    var text :- SearchText(data);
    var cleanName :- CleanName(rawName);
    Ok(SuccessRecord(data, cleanName, Classify(text), timestamp))
  }

  /** The whole stage: the `try` block's record, or the fail-safe record when
      it throws. */
  function Process(root: Value, timestamp: string, describe: Fault -> string): Value
  {
    match Run(root, timestamp)
    case Ok(out) => out
    case Err(fault) => FailSafeRecord(describe(fault))
  }

  /** The stage as the script runs it: each step in turn, the keyword scan as
      a loop, and the first exception caught. */
  method Execute(root: Value, timestamp: string, describe: Fault -> string) returns (out: Value)
    ensures out == Process(root, timestamp, describe)
  {
    var working := WorkingRecord(root);
    if working.Err? {
      return FailSafeRecord(describe(working.fault));
    }
    var data := working.value;
    var rawName := RawName(data).value;
    var newsSummary := SearchText(data);
    if newsSummary.Err? {
      return FailSafeRecord(describe(newsSummary.fault));
    }
    var cleanName := CleanName(rawName);
    if cleanName.Err? {
      return FailSafeRecord(describe(cleanName.fault));
    }
    var status, reason := ScanKeywords(newsSummary.value);
    out := SuccessRecord(data, cleanName.value, Verdict(status, reason), timestamp);
  }

  // ---------------------------------------------------------------------
  // Properties of the stage

  /** The `_meta` block of an output record, or undefined when it has none. */
  function MetaOf(out: Value): Value
  {
    if out.Obj? && "_meta" in out.props then out.props["_meta"] else Undefined
  }

  /** The status in the `_meta` block of an output record, or undefined when
      it has none. */
  function StatusOf(out: Value): Value
  {
    var meta := MetaOf(out);
    if meta.Obj? && "governance_status" in meta.props then meta.props["governance_status"] else Undefined
  }

  /** The shape of every successful output: a `_meta` block with exactly the
      five keys, a status that is CLEAN or QUARANTINE, the fixed version and
      the given timestamp. */
  predicate IsSuccessShape(out: Value, timestamp: string)
  {
    && out.Obj? && "_meta" in out.props
    && var meta := out.props["_meta"];
    && meta.Obj?
    && meta.props.Keys == {"normalized_name", "governance_status", "governance_reason", "logic_version", "processed_at"}
    && meta.props["governance_status"] in {Str(Clean), Str(Quarantine)}
    && meta.props["logic_version"] == Str(LogicVersion)
    && meta.props["processed_at"] == Str(timestamp)
  }

  /** The shape of the fail-safe output: exactly four keys, none of them taken
      from the input, quarantined with the fixed system-error reason. */
  predicate IsFailSafeShape(out: Value)
  {
    && out.Obj?
    && out.props.Keys == {"error", "message", "governance_status", "governance_reason"}
    && out.props["error"] == Bool(true)
    && out.props["message"].Str?
    && out.props["governance_status"] == Str(Quarantine)
    && out.props["governance_reason"] == Str(SystemErrorReason)
  }

  /** A composed success record has the success shape and not the fail-safe
      one, whatever the working record held. */
  lemma SuccessRecordShape(data: Value, cleanName: string, verdict: Verdict, timestamp: string)
    requires verdict.status == Clean || verdict.status == Quarantine
    ensures IsSuccessShape(SuccessRecord(data, cleanName, verdict, timestamp), timestamp)
    ensures !IsFailSafeShape(SuccessRecord(data, cleanName, verdict, timestamp))
  {
    var out := SuccessRecord(data, cleanName, verdict, timestamp);
    assert out.props["_meta"] == MetaBlock(cleanName, verdict, timestamp);
    assert "_meta" !in {"error", "message", "governance_status", "governance_reason"};
  }

  /** The fail-safe record has the fail-safe shape and not the success one. */
  lemma FailSafeRecordShape(message: string, timestamp: string)
    ensures IsFailSafeShape(FailSafeRecord(message))
    ensures !IsSuccessShape(FailSafeRecord(message), timestamp)
  {
  }

  /** The stage never fails to return a record: it succeeds and has the
      success shape, or it fails and has the fail-safe shape, and the two
      shapes never coincide. */
  lemma OutcomeHasOneOfTwoShapes(root: Value, timestamp: string, describe: Fault -> string)
    ensures var out := Process(root, timestamp, describe);
      && (IsSuccessShape(out, timestamp) <==> Run(root, timestamp).Ok?)
      && (IsFailSafeShape(out) <==> Run(root, timestamp).Err?)
  {
    var run := Run(root, timestamp);
    if run.Ok? {
      var data := WorkingRecord(root).value;
      var cleanName := NormalizeName(NameSource(data).s);
      var verdict := Classify(ToLowerCase(TextSource(data).s));
      assert run.value == SuccessRecord(data, cleanName, verdict, timestamp);
      SuccessRecordShape(data, cleanName, verdict, timestamp);
    } else {
      FailSafeRecordShape(describe(run.fault), timestamp);
    }
  }

  /** The stage throws exactly when the root is null or undefined, or the
      value chosen for the search text or for the name is not a string. */
  lemma FaultsExactlyWhen(root: Value, timestamp: string)
    ensures Run(root, timestamp).Err? <==>
      || Nullish(root)
      || !TextSource(WorkingRecord(root).value).Str?
      || !NameSource(WorkingRecord(root).value).Str?
  {
  }

  /** A success record holds the working record's own entries, except that
      `_meta` is added or overwritten. */
  lemma SuccessRecordKeepsFields(data: Value, cleanName: string, verdict: Verdict, timestamp: string)
    ensures var out := SuccessRecord(data, cleanName, verdict, timestamp);
      && out.props.Keys == OwnEntries(data).Keys + {"_meta"}
      && forall k :: k in OwnEntries(data) && k != "_meta" ==> out.props[k] == OwnEntries(data)[k]
  {
  }

  /** A successful output keeps every own entry of the working record (not of
      the envelope) except `_meta`, and adds nothing but `_meta`. */
  lemma SuccessKeepsRecordFields(root: Value, timestamp: string)
    ensures Run(root, timestamp).Ok? ==>
      var data := WorkingRecord(root).value;
      var out := Run(root, timestamp).value;
      && out.Obj?
      && out.props.Keys == OwnEntries(data).Keys + {"_meta"}
      && forall k :: k in OwnEntries(data) && k != "_meta" ==> out.props[k] == OwnEntries(data)[k]
  {
    if Run(root, timestamp).Ok? {
      var data := WorkingRecord(root).value;
      var cleanName := NormalizeName(NameSource(data).s);
      var verdict := Classify(ToLowerCase(TextSource(data).s));
      assert Run(root, timestamp).value == SuccessRecord(data, cleanName, verdict, timestamp);
      SuccessRecordKeepsFields(data, cleanName, verdict, timestamp);
    }
  }

  /** The `_meta` block of a successful output holds the normalized first
      truthy name and the classification of the lower-cased first truthy
      text. */
  lemma MetaDescribesRecord(root: Value, timestamp: string)
    ensures Run(root, timestamp).Ok? ==>
      var data := WorkingRecord(root).value;
      MetaOf(Run(root, timestamp).value)
        == MetaBlock(NormalizeName(NameSource(data).s), Classify(ToLowerCase(TextSource(data).s)), timestamp)
  {
  }

  /** The status in a `_meta` block is QUARANTINE exactly when some restricted
      term occurs in the classified text. */
  lemma MetaStatusIffTerm(cleanName: string, text: string, timestamp: string)
    ensures MetaBlock(cleanName, Classify(text), timestamp).props["governance_status"] == Str(Quarantine)
      <==> exists i :: 0 <= i < |RestrictedTerms| && Occurs(text, RestrictedTerms[i])
  {
    var verdict := Classify(text);
    assert Str(verdict.status) == Str(Quarantine) <==> verdict.status == Quarantine;
  }

  /** A successful run quarantines the record exactly when some restricted
      term occurs in the lower-cased search text. */
  lemma QuarantineIffTermInText(root: Value, timestamp: string)
    ensures Run(root, timestamp).Ok? ==>
      var text := ToLowerCase(TextSource(WorkingRecord(root).value).s);
      (StatusOf(Run(root, timestamp).value) == Str(Quarantine) <==>
         exists i :: 0 <= i < |RestrictedTerms| && Occurs(text, RestrictedTerms[i]))
  {
    if Run(root, timestamp).Ok? {
      var data := WorkingRecord(root).value;
      MetaDescribesRecord(root, timestamp);
      MetaStatusIffTerm(NormalizeName(NameSource(data).s), ToLowerCase(TextSource(data).s), timestamp);
    }
  }

  /** Two working records with the same name source and the same search text
      succeed or fail together, with the same `_meta` block. */
  lemma MetaDependsOnNameAndText(rootA: Value, rootB: Value, timestamp: string)
    requires !Nullish(rootA) && !Nullish(rootB)
    requires NameSource(WorkingRecord(rootA).value) == NameSource(WorkingRecord(rootB).value)
    requires SearchText(WorkingRecord(rootA).value) == SearchText(WorkingRecord(rootB).value)
    ensures Run(rootA, timestamp).Ok? == Run(rootB, timestamp).Ok?
    ensures Run(rootA, timestamp).Ok? ==> MetaOf(Run(rootA, timestamp).value) == MetaOf(Run(rootB, timestamp).value)
  {
    MetaDescribesRecord(rootA, timestamp);
    MetaDescribesRecord(rootB, timestamp);
  }

  /** A non-empty `news_summary` is the search text, so two that differ only
      in the case of their letters give the same search text. */
  lemma SummaryCaseGivesSameText(fields: map<string, Value>, a: string, b: string)
    requires SameIgnoringCase(a, b) && a != []
    ensures SearchText(Obj(fields["news_summary" := Str(a)])) == SearchText(Obj(fields["news_summary" := Str(b)]))
  {
    var dataA, dataB := Obj(fields["news_summary" := Str(a)]), Obj(fields["news_summary" := Str(b)]);
    OrChainOfTwo(Str(a), FieldOf(dataA, Description), Str(""));
    OrChainOfTwo(Str(b), FieldOf(dataB, Description), Str(""));
    SameIgnoringCaseLowersAlike(a, b);
    assert SearchText(dataA) == Ok(ToLowerCase(a));
  }

  /** Changing the case of the letters of `news_summary` changes nothing in
      whether the stage succeeds or in the `_meta` block it produces. */
  lemma SummaryCaseIsIrrelevant(fields: map<string, Value>, a: string, b: string, timestamp: string)
    requires SameIgnoringCase(a, b)
    ensures var ra := Run(Obj(fields["news_summary" := Str(a)]), timestamp);
      var rb := Run(Obj(fields["news_summary" := Str(b)]), timestamp);
      && ra.Ok? == rb.Ok?
      && (ra.Ok? ==> MetaOf(ra.value) == MetaOf(rb.value))
  {
    var rootA, rootB := Obj(fields["news_summary" := Str(a)]), Obj(fields["news_summary" := Str(b)]);
    if Truthy(FieldOf(rootA, Body)) {
      assert WorkingRecord(rootA) == WorkingRecord(rootB);
    } else if a == [] {
      assert rootA == rootB;
    } else {
      assert WorkingRecord(rootA) == Ok(rootA) && WorkingRecord(rootB) == Ok(rootB);
      assert NameSource(rootA) == NameSource(rootB);
      SummaryCaseGivesSameText(fields, a, b);
    }
    MetaDependsOnNameAndText(rootA, rootB, timestamp);
  }

  /** An envelope whose `body` is truthy and has no truthy `body` of its own
      is processed exactly as its body would be. */
  lemma EnvelopeIsTransparent(root: Value, timestamp: string)
    requires root.Obj? && "body" in root.props && Truthy(root.props["body"])
    requires !Truthy(FieldOf(root.props["body"], Body))
    ensures Run(root, timestamp) == Run(root.props["body"], timestamp)
  {
  }

  /** "Unknown Entity" carries no legal suffix and is its own clean name:
      none of the characters that sit one suffix-word length before its end
      is a separator. */
  lemma UnknownEntityIsClean(name: string)
    requires name == UnknownEntity
    ensures NormalizeName(name) == name
  {
    forall j: nat | j <= |name| ensures !MatchesAt(name, j) {
      if MatchesAt(name, j) {
        SeparatorBeforeLastWord(name, j);
      }
    }
    CleanNameIsFixed(name);
  }

  /** An empty record yields the placeholder name and a CLEAN verdict. */
  lemma EmptyRecordIsUnknownAndClean(root: Value, timestamp: string, describe: Fault -> string)
    requires root == Obj(map[])
    ensures Process(root, timestamp, describe)
      == Obj(map["_meta" := MetaBlock(UnknownEntity, Verdict(Clean, CleanReason), timestamp)])
  {
    assert WorkingRecord(root) == Ok(root);
    assert NameSource(root) == Str(UnknownEntity);
    assert SearchText(root) == Ok("");
    UnknownEntityIsClean(UnknownEntity);
    EmptyTextIsClean("");
    assert Run(root, timestamp) == Ok(SuccessRecord(root, UnknownEntity, Verdict(Clean, CleanReason), timestamp));
  }

  /** A truthy number as `news_summary` makes `toLowerCase` throw, and the
      record is replaced by the fail-safe record. */
  lemma NumericSummaryFailsSafe(fields: map<string, Value>, n: real, timestamp: string, describe: Fault -> string)
    requires "body" !in fields && n != 0.0
    ensures Process(Obj(fields["news_summary" := Num(n)]), timestamp, describe)
      == FailSafeRecord(describe(NotAFunction("toLowerCase")))
  {
    var root := Obj(fields["news_summary" := Num(n)]);
    assert WorkingRecord(root) == Ok(root);
    assert FieldOf(root, NewsSummary) == Num(n);
    assert SearchText(root) == Err(NotAFunction("toLowerCase"));
    assert Run(root, timestamp) == Err(NotAFunction("toLowerCase"));
  }
}
