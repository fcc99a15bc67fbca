/**
 * Extracting one document (`extract_document_data`, main.py:86-168, and
 * `parse_date_fields`, main.py:170-189).
 *
 * The document's type selects a configuration: the required output fields,
 * the skill that holds them and the map from label names to fields. The
 * record starts with every required field at "N/A"; the labels of the first
 * skill with exactly the configured name fill it in; the type's date fields
 * are normalised; any required field still "N/A" or empty rejects the
 * document, and a complete record is marked "original".
 */
module Extraction {
  import opened Wrappers
  import opened Strings
  import opened Documents
  import FieldValue
  import Dates
  import Classify
  import Labels

  // ---------------------------------------------------------------------
  // Configuration per document type

  /** The output fields that the label maps write. */
  datatype Field =
    | EmployeeName | EmployerName | PayPeriodEndDate | PayPeriodStartDate | YearToDateEarnings
    | Year | Name | BeginningTaxYear | EndingTaxYear

  /** The field's key in the output record. */
  function Key(f: Field): string {
    match f
    case EmployeeName => "employee_name"
    case EmployerName => "employer_name"
    case PayPeriodEndDate => "pay_period_end_date"
    case PayPeriodStartDate => "pay_period_start_date"
    case YearToDateEarnings => "year_to_date_earnings"
    case Year => "year"
    case Name => "name"
    case BeginningTaxYear => "beginning_tax_year"
    case EndingTaxYear => "ending_tax_year"
  }

  /** The keys the pipeline sets itself. */
  predicate IsReserved(k: string) {
    k == "document_type" || k == "filename" || k == "docId" || k == "status"
  }

  /** Different fields have different keys, and none is a key the pipeline sets itself. */
  lemma KeyInjective(f: Field, g: Field)
    ensures Key(f) == Key(g) <==> f == g
    ensures !IsReserved(Key(f))
  {
  }

  /** `required_fields` of each type, in declared order (main.py:97, 115, 129). */
  function RequiredFields(t: DocType): seq<Field> {
    match t
    case Paystub => [EmployeeName, EmployerName, PayPeriodEndDate, PayPeriodStartDate, YearToDateEarnings]
    case W2 => [EmployeeName, EmployerName, Year]
    case Form1120 => [Name, Year, BeginningTaxYear, EndingTaxYear]
  }

  /** `skill_name` of each type (main.py:105, 121, 136). */
  function SkillName(t: DocType): string {
    match t
    case Paystub => "IC - Paystubs"
    case W2 => "IC - W2"
    case Form1120 => "2023 1120 Corporation1"
  }

  /** `label_map` of each type (main.py:106-112, 122-126, 137-142). */
  function LabelMap(t: DocType): map<string, string> {
    match t
    case Paystub =>
      map["Employee Name" := Key(EmployeeName),
          "Employer Name" := Key(EmployerName),
          "Pay Period End Date" := Key(PayPeriodEndDate),
          "Pay Period Start Date" := Key(PayPeriodStartDate),
          "Year to Date Earnings" := Key(YearToDateEarnings)]
    case W2 =>
      map["Employee Name" := Key(EmployeeName),
          "Employer Name" := Key(EmployerName),
          "Year" := Key(Year)]
    case Form1120 =>
      map["Name" := Key(Name),
          "1120 Year" := Key(Year),
          "Beginning Date Of Tax Year" := Key(BeginningTaxYear),
          "Ending Date Of Tax Year" := Key(EndingTaxYear)]
  }

  /** The fields `parse_date_fields` normalises (main.py:173-180); a W-2 has none. */
  function DateFields(t: DocType): seq<Field> {
    match t
    case Paystub => [PayPeriodEndDate, PayPeriodStartDate]
    case W2 => []
    case Form1120 => [BeginningTaxYear, EndingTaxYear]
  }

  /** The key of each field in a sequence, in order. */
  function Keys(fields: seq<Field>): (r: seq<string>)
    ensures |r| == |fields| && forall i | 0 <= i < |fields| :: r[i] == Key(fields[i])
  {
    if fields == [] then [] else [Key(fields[0])] + Keys(fields[1..])
  }

  predicate Distinct<T(==)>(xs: seq<T>) {
    forall i, j | 0 <= i < j < |xs| :: xs[i] != xs[j]
  }

  /** Distinct fields have distinct keys. */
  lemma DistinctKeys(fields: seq<Field>)
    requires Distinct(fields)
    ensures Distinct(Keys(fields))
  {
    forall i, j | 0 <= i < j < |fields| ensures Keys(fields)[i] != Keys(fields)[j] {
      KeyInjective(fields[i], fields[j]);
    }
  }

  /** What the extraction of one type needs, with the fields as record keys. */
  datatype TypeConfig = TypeConfig(
    requiredFields: seq<string>,
    skillName: string,
    labelMap: map<string, string>,
    dateFields: seq<string>)

  /** The configuration of each type. */
  function Config(t: DocType): TypeConfig {
    TypeConfig(Keys(RequiredFields(t)), SkillName(t), LabelMap(t), Keys(DateFields(t)))
  }

  /** The keys of the type's required fields. */
  function RequiredKeys(t: DocType): seq<string> {
    Config(t).requiredFields
  }

  /**
   * A consistent configuration: no field is listed twice, the date fields
   * are required fields, the label map writes only required fields, and no
   * required field is a key the pipeline sets itself.
   */
  predicate ValidConfig(c: TypeConfig) {
    && Distinct(c.requiredFields)
    && Distinct(c.dateFields)
    && (forall k | k in c.dateFields :: k in c.requiredFields)
    && (forall k | k in c.labelMap.Values :: k in c.requiredFields)
    && (forall k | k in c.requiredFields :: !IsReserved(k))
  }

  /**
   * The configurations are consistent, the label map of each type writes
   * every one of its required fields, and a paystub, a W-2 and a Form 1120
   * require five, three and four fields.
   */
  lemma ConfigShape(t: DocType)
    ensures ValidConfig(Config(t))
    ensures Config(t).labelMap.Values == set k | k in Config(t).requiredFields
    ensures |Config(t).requiredFields| == (match t case Paystub => 5 case W2 => 3 case Form1120 => 4)
  {
    LabelMapCoversRequired(t);
    DateKeysRequired(t);
    FieldsDistinct(t);
    DistinctKeys(RequiredFields(t));
    DistinctKeys(DateFields(t));
    RequiredKeysNotReserved(t);
  }

  /** No type lists a field twice. */
  lemma FieldsDistinct(t: DocType)
    ensures Distinct(RequiredFields(t)) && Distinct(DateFields(t))
  {
    match t
    case Paystub =>
      assert Distinct([EmployeeName, EmployerName, PayPeriodEndDate, PayPeriodStartDate, YearToDateEarnings]);
    case W2 =>
    case Form1120 =>
  }

  /** No required field is a key the pipeline sets itself. */
  lemma RequiredKeysNotReserved(t: DocType)
    ensures forall k | k in Config(t).requiredFields :: !IsReserved(k)
  {
    var req := RequiredFields(t);
    forall k | k in Config(t).requiredFields ensures !IsReserved(k) {
      var i :| 0 <= i < |req| && Keys(req)[i] == k;
      KeyInjective(req[i], req[i]);
    }
  }

  /** Every date field is a required field. */
  lemma DateKeysRequired(t: DocType)
    ensures forall k | k in Config(t).dateFields :: k in Config(t).requiredFields
  {
    var req := Config(t).requiredFields;
    var dates := Config(t).dateFields;
    match t
    case Paystub =>
      assert dates == [req[2], req[3]];
    case W2 =>
      assert dates == [];
    case Form1120 =>
      assert dates == [req[2], req[3]];
  }

  /** The label map's values are the required keys. */
  lemma LabelMapCoversRequired(t: DocType)
    ensures Config(t).labelMap.Values == set k | k in Config(t).requiredFields
  {
    var req := Config(t).requiredFields;
    var m := LabelMap(t);
    match t
    case Paystub =>
      assert req == [m["Employee Name"], m["Employer Name"], m["Pay Period End Date"], m["Pay Period Start Date"], m["Year to Date Earnings"]];
      assert m.Keys == {"Employee Name", "Employer Name", "Pay Period End Date", "Pay Period Start Date", "Year to Date Earnings"};
    case W2 =>
      assert req == [m["Employee Name"], m["Employer Name"], m["Year"]];
      assert m.Keys == {"Employee Name", "Employer Name", "Year"};
    case Form1120 =>
      assert req == [m["Name"], m["1120 Year"], m["Beginning Date Of Tax Year"], m["Ending Date Of Tax Year"]];
      assert m.Keys == {"Name", "1120 Year", "Beginning Date Of Tax Year", "Ending Date Of Tax Year"};
  }

  // ---------------------------------------------------------------------
  // The starting record

  /** The `filename` field: the cleaned `Meta.FileName`, or the file's own name, plus ".json". */
  function FileNameField(doc: Document, fileName: string): (r: string)
    ensures |r| >= 5 && r[|r| - 5..] == ".json"
  {
    FieldValue.GetFieldValue(doc.fileName.GetOr(fileName)) + ".json"
  }

  /** `record.update({k: value for k in keys})`, one key after the other. */
  function SetAll(record: Record, keys: seq<string>, value: string): Record
    decreases keys
  {
    if keys == [] then record else SetAll(record[keys[0] := value], keys[1..], value)
  }

  /** After the update each listed key holds the value and every other key is as it was. */
  lemma {:induction false} SetAllEffect(record: Record, keys: seq<string>, value: string, k: string)
    ensures k in SetAll(record, keys, value) <==> k in record || k in keys
    ensures k in keys ==> SetAll(record, keys, value)[k] == value
    ensures k !in keys && k in record ==> SetAll(record, keys, value)[k] == record[k]
    decreases keys
  {
    if keys != [] {
      SetAllEffect(record[keys[0] := value], keys[1..], value, k);
      assert k in keys <==> k == keys[0] || k in keys[1..];
    }
  }

  /** `base_data` before the labels are read (main.py:90-94, then the `update` of the type). */
  function InitialRecord(t: DocType, c: TypeConfig, fileName: string): Record {
    SetAll(map["document_type" := TypeName(t), "filename" := fileName, "docId" := ""], c.requiredFields, FieldValue.NA)
  }

  /**
   * The starting record holds the type's name, the file name, an empty
   * `docId` and every required field at "N/A", and no status yet.
   */
  lemma InitialRecordShape(t: DocType, c: TypeConfig, fileName: string, k: string)
    requires ValidConfig(c)
    ensures var r := InitialRecord(t, c, fileName);
      && (k in c.requiredFields ==> k in r && r[k] == FieldValue.NA)
      && (k == "document_type" ==> k in r && r[k] == TypeName(t))
      && (k == "filename" ==> k in r && r[k] == fileName)
      && (k == "docId" ==> k in r && r[k] == "")
      && (k in r <==> k in c.requiredFields || (IsReserved(k) && k != "status"))
  {
    SetAllEffect(map["document_type" := TypeName(t), "filename" := fileName, "docId" := ""], c.requiredFields, FieldValue.NA, k);
    if IsReserved(k) {
      assert k !in c.requiredFields;
    }
  }

  // ---------------------------------------------------------------------
  // The skill that holds the fields

  /** The first skill whose name is exactly `name`. */
  function FindSkill(skills: seq<Skill>, name: string): Option<Skill> {
    if skills == [] then None
    else if skills[0].name == name then Some(skills[0])
    else FindSkill(skills[1..], name)
  }

  /** `FindSkill` returns the first skill with the name, and nothing only when there is none. */
  lemma {:induction false} FindSkillFirst(skills: seq<Skill>, name: string)
    ensures FindSkill(skills, name).None? <==> forall i | 0 <= i < |skills| :: skills[i].name != name
    ensures FindSkill(skills, name).Some? ==>
      exists i | 0 <= i < |skills| :: skills[i] == FindSkill(skills, name).value
        && forall j | 0 <= j < i :: skills[j].name != name
  {
    if skills != [] && skills[0].name != name {
      FindSkillFirst(skills[1..], name);
      if FindSkill(skills, name).Some? {
        var i :| 0 <= i < |skills[1..]| && skills[1..][i] == FindSkill(skills, name).value
          && forall j | 0 <= j < i :: skills[1..][j].name != name;
        assert skills[i + 1] == FindSkill(skills, name).value;
        forall j | 0 <= j < i + 1 ensures skills[j].name != name {
          if j > 0 { assert skills[j] == skills[1..][j - 1]; }
        }
      } else {
        forall i | 0 <= i < |skills| ensures skills[i].name != name {
          if i > 0 { assert skills[i] == skills[1..][i - 1]; }
        }
      }
    } else if skills != [] {
      assert skills[0] == FindSkill(skills, name).value;
    }
  }

  /** Only the skills up to the first one with the name matter. */
  lemma {:induction false} FindSkillPrefix(skills: seq<Skill>, i: nat, later: seq<Skill>, name: string)
    requires i < |skills| && skills[i].name == name
    requires forall j | 0 <= j < i :: skills[j].name != name
    ensures FindSkill(skills, name) == Some(skills[i])
    ensures FindSkill(skills[..i + 1] + later, name) == Some(skills[i])
  {
    var cut := skills[..i + 1] + later;
    assert cut[0] == skills[0];
    if i > 0 {
      assert skills[0].name != name;
      assert cut[1..] == skills[1..][..i] + later;
      forall j | 0 <= j < i - 1 ensures skills[1..][j].name != name {
        assert skills[1..][j] == skills[j + 1];
      }
      FindSkillPrefix(skills[1..], i - 1, later, name);
    }
  }

  // ---------------------------------------------------------------------
  // Date normalisation

  /** `parse_date` with its fallback parser fixed. */
  function DateNormaliser(fallback: string -> Option<string>): string -> string {
    s => Dates.ParseDate(s, fallback)
  }

  /**
   * The date fields in turn: a present value other than "N/A" is replaced by
   * its normal form under `normalise`.
   */
  function ParseDates(fields: Record, dates: seq<string>, normalise: string -> string): Record
    decreases dates
  {
    if dates == [] then fields
    else
      var k := dates[0];
      var next := if k in fields && fields[k] != FieldValue.NA then fields[k := normalise(fields[k])] else fields;
      ParseDates(next, dates[1..], normalise)
  }

  /**
   * Date normalisation keeps the record's keys, leaves every other field
   * and every "N/A" alone, and gives each other date field the normal form
   * of its value.
   */
  lemma {:induction false} ParseDatesEffect(fields: Record, dates: seq<string>, normalise: string -> string)
    requires Distinct(dates)
    ensures ParseDates(fields, dates, normalise).Keys == fields.Keys
    ensures forall k | k in fields && (k !in dates || fields[k] == FieldValue.NA) ::
      ParseDates(fields, dates, normalise)[k] == fields[k]
    ensures forall k | k in fields && k in dates && fields[k] != FieldValue.NA ::
      ParseDates(fields, dates, normalise)[k] == normalise(fields[k])
    decreases dates
  {
    if dates != [] {
      var k := dates[0];
      var next := if k in fields && fields[k] != FieldValue.NA then fields[k := normalise(fields[k])] else fields;
      assert Distinct(dates[1..]) by {
        forall i, j | 0 <= i < j < |dates[1..]| ensures dates[1..][i] != dates[1..][j] {
          assert dates[1..][i] == dates[i + 1] && dates[1..][j] == dates[j + 1];
        }
      }
      ParseDatesEffect(next, dates[1..], normalise);
      assert k !in dates[1..] by {
        forall i | 0 <= i < |dates[1..]| ensures dates[1..][i] != k {
          assert dates[1..][i] == dates[i + 1];
        }
      }
      forall m | m in dates && m != k ensures m in dates[1..] {
        var i :| 0 <= i < |dates| && dates[i] == m;
        assert dates[1..][i - 1] == m;
      }
    }
  }

  /** `parse_date_fields`: normalises the type's date fields of `base` in place. */
  method ParseDateFields(base: BaseData, t: DocType, fallback: string -> Option<string>)
    modifies base
    ensures base.fields == ParseDates(old(base.fields), Config(t).dateFields, DateNormaliser(fallback))
  {
    var dates := Config(t).dateFields;
    for i := 0 to |dates|
      invariant ParseDates(base.fields, dates[i..], DateNormaliser(fallback)) == ParseDates(old(base.fields), dates, DateNormaliser(fallback))
    {
      var field := dates[i];
      if field in base.fields && base.fields[field] != FieldValue.NA {
        var parsed := Dates.ParseDate(base.fields[field], fallback);
        base.fields := base.fields[field := parsed];
      }
      assert dates[i..][1..] == dates[i + 1..];
    }
    assert dates[|dates|..] == [];
  }

  // ---------------------------------------------------------------------
  // Missing fields

  /** The required fields that are present with the value "N/A" or "", in declared order. */
  function MissingFields(fields: Record, required: seq<string>): seq<string> {
    if required == [] then []
    else
      var k := required[0];
      var rest := MissingFields(fields, required[1..]);
      if k in fields && (fields[k] == FieldValue.NA || fields[k] == "") then [k] + rest else rest
  }

  /** A field is reported exactly when it is required and present with a blank value. */
  lemma {:induction false} MissingFieldsMember(fields: Record, required: seq<string>, k: string)
    ensures k in MissingFields(fields, required) <==>
      k in required && k in fields && (fields[k] == FieldValue.NA || fields[k] == "")
  {
    if required != [] {
      MissingFieldsMember(fields, required[1..], k);
      assert k in required <==> k == required[0] || k in required[1..];
    }
  }

  /** Reports keep the declared order: the report on `a + b` is the report on `a`, then on `b`. */
  lemma {:induction false} MissingFieldsAppend(fields: Record, a: seq<string>, b: seq<string>)
    ensures MissingFields(fields, a + b) == MissingFields(fields, a) + MissingFields(fields, b)
  {
    if a == [] {
      assert a + b == b;
    } else {
      assert (a + b)[0] == a[0] && (a + b)[1..] == a[1..] + b;
      MissingFieldsAppend(fields, a[1..], b);
    }
  }

  // ---------------------------------------------------------------------
  // Reading labels, then normalising dates

  /** Reading labels and normalising dates never removes a key. */
  lemma FilledKeepsKeys(init: Record, labels: seq<Label>, labelMap: map<string, string>, dates: seq<string>, normalise: string -> string)
    requires Distinct(dates)
    ensures init.Keys <= ParseDates(Labels.Walk(init, labels, labelMap), dates, normalise).Keys
  {
    Labels.WalkIsPreorderReplay(init, labels, labelMap);
    Labels.ReplayKeepsKeys(init, Labels.Preorder(labels), labelMap);
    ParseDatesEffect(Labels.Walk(init, labels, labelMap), dates, normalise);
  }

  /** A key the label map does not write and that is not a date keeps its starting value. */
  lemma FilledKeepsUnmapped(init: Record, labels: seq<Label>, labelMap: map<string, string>, dates: seq<string>, normalise: string -> string, k: string)
    requires Distinct(dates) && k in init && k !in labelMap.Values && k !in dates
    ensures var rec := ParseDates(Labels.Walk(init, labels, labelMap), dates, normalise);
      k in rec && rec[k] == init[k]
  {
    Labels.OnlyMappedFieldsChange(init, labels, labelMap, k);
    ParseDatesEffect(Labels.Walk(init, labels, labelMap), dates, normalise);
  }

  /** A key holds what the labels wrote, normalised when it is a date. */
  lemma FilledValue(init: Record, labels: seq<Label>, labelMap: map<string, string>, dates: seq<string>, normalise: string -> string, k: string)
    requires Distinct(dates) && k in init
    ensures var read := Labels.Walk(init, labels, labelMap);
      var rec := ParseDates(read, dates, normalise);
      k in read && k in rec && rec[k] == if k in dates && read[k] != FieldValue.NA then normalise(read[k]) else read[k]
  {
    Labels.WalkIsPreorderReplay(init, labels, labelMap);
    Labels.ReplayKeepsKeys(init, Labels.Preorder(labels), labelMap);
    ParseDatesEffect(Labels.Walk(init, labels, labelMap), dates, normalise);
  }

  /** A key at "N/A" that no label writes is still "N/A" at the end. */
  lemma FilledUnwritten(init: Record, labels: seq<Label>, labelMap: map<string, string>, dates: seq<string>, normalise: string -> string, k: string)
    requires Distinct(dates) && k in init && init[k] == FieldValue.NA
    requires var flat := Labels.Preorder(labels);
      forall j | 0 <= j < |flat| :: !Labels.Writes(flat[j], labelMap, k)
    ensures var rec := ParseDates(Labels.Walk(init, labels, labelMap), dates, normalise);
      k in rec && rec[k] == FieldValue.NA
  {
    Labels.WalkIsPreorderReplay(init, labels, labelMap);
    Labels.ReplayUntouched(init, Labels.Preorder(labels), labelMap, k);
    ParseDatesEffect(Labels.Walk(init, labels, labelMap), dates, normalise);
  }

  // ---------------------------------------------------------------------
  // The whole extraction

  /** The result of extracting one document: a record, or the reason it was rejected. */
  datatype Outcome = Extracted(record: Record, docType: DocType) | Rejected(docType: DocType, reason: string)

  function SkillNotFound(skillName: string): string {
    "Required skill '" + skillName + "' not found"
  }

  function MissingMessage(missing: seq<string>): string {
    "Missing fields: " + Join(missing, ", ")
  }

  /** The record once the labels of `skill` have been read and the dates normalised. */
  function Filled(t: DocType, c: TypeConfig, fileName: string, skill: Skill, normalise: string -> string): Record {
    ParseDates(Labels.Walk(InitialRecord(t, c, fileName), skill.labels, c.labelMap), c.dateFields, normalise)
  }

  /**
   * What `extract_document_data` returns for a document of type `t` with
   * configuration `c`, whose skills are `skills` and whose `filename` field
   * is `fileName`, when dates are normalised by `normalise`.
   */
  function ExtractWith(t: DocType, c: TypeConfig, skills: seq<Skill>, fileName: string, normalise: string -> string): Outcome {
    match FindSkill(skills, c.skillName)
    case None => Rejected(t, SkillNotFound(c.skillName))
    case Some(skill) =>
      var record := Filled(t, c, fileName, skill, normalise);
      var missing := MissingFields(record, c.requiredFields);
      if missing != [] then Rejected(t, MissingMessage(missing))
      else Extracted(record["status" := "original"], t)
  }

  /** What `extract_document_data` returns for a document and the name of its file. */
  function ExtractSpec(doc: Document, fileName: string, fallback: string -> Option<string>): Outcome {
    var t := Classify.IdentifyDocumentType(doc);
    ExtractWith(t, Config(t), doc.summary, FileNameField(doc, fileName), DateNormaliser(fallback))
  }

  /**
   * The skill scan of `extract_document_data` (main.py:143-148): the labels
   * of the first skill named `skillName` are read into `base`; the others
   * are never looked at.
   */
  method ReadSkill(skills: seq<Skill>, skillName: string, labelMap: map<string, string>, base: BaseData) returns (found: bool)
    modifies base
    ensures found <==> FindSkill(skills, skillName).Some?
    ensures base.fields ==
      if found then Labels.Walk(old(base.fields), FindSkill(skills, skillName).value.labels, labelMap)
      else old(base.fields)
  {
    found := false;
    var i := 0;
    while i < |skills|
      invariant 0 <= i <= |skills|
      invariant FindSkill(skills[i..], skillName) == FindSkill(skills, skillName)
      invariant !found && base.fields == old(base.fields)
    {
      if skills[i].name == skillName {
        found := true;
        assert FindSkill(skills[i..], skillName) == Some(skills[i]);
        Labels.ExtractFromLabels(skills[i].labels, labelMap, base);
        break;
      }
      assert skills[i..][1..] == skills[i + 1..];
      i := i + 1;
    }
    if !found {
      assert skills[i..] == [];
    }
  }

  /** The missing-field check of `extract_document_data` (main.py:152-155). */
  method CollectMissing(fields: Record, required: seq<string>) returns (missing: seq<string>)
    ensures missing == MissingFields(fields, required)
  {
    missing := [];
    for k := 0 to |required|
      invariant missing == MissingFields(fields, required[..k])
    {
      var field := required[k];
      MissingFieldsAppend(fields, required[..k], [field]);
      assert required[..k + 1] == required[..k] + [field];
      if field in fields && (fields[field] == FieldValue.NA || fields[field] == "") {
        missing := missing + [field];
      }
    }
    assert required[..|required|] == required;
  }

  /** `extract_document_data` (main.py:86-168): builds the record in place, step by step. */
  method ExtractDocumentData(doc: Document, fileName: string, fallback: string -> Option<string>) returns (r: Outcome)
    ensures r == ExtractSpec(doc, fileName, fallback)
  {
    var t := Classify.IdentifyDocumentType(doc);
    var c := Config(t);
    var base := new BaseData(InitialRecord(t, c, FileNameField(doc, fileName)));
    var skillFound := ReadSkill(doc.summary, c.skillName, c.labelMap, base);
    if !skillFound {
      return Rejected(t, SkillNotFound(c.skillName));
    }
    ParseDateFields(base, t, fallback);
    var missing := CollectMissing(base.fields, c.requiredFields);
    if missing != [] {
      return Rejected(t, MissingMessage(missing));
    }
    base.fields := base.fields["status" := "original"];
    r := Extracted(base.fields, t);
  }

  // ---------------------------------------------------------------------
  // What an extraction promises

  /**
   * Without the configured skill the document is rejected with the skill's
   * name, before any date is parsed: the outcome does not depend on the
   * date normaliser.
   */
  lemma SkillMissingRejects(t: DocType, c: TypeConfig, skills: seq<Skill>, fileName: string, normalise: string -> string, other: string -> string)
    requires forall i | 0 <= i < |skills| :: skills[i].name != c.skillName
    ensures ExtractWith(t, c, skills, fileName, normalise) == Rejected(t, SkillNotFound(c.skillName))
    ensures ExtractWith(t, c, skills, fileName, normalise) == ExtractWith(t, c, skills, fileName, other)
  {
    FindSkillFirst(skills, c.skillName);
  }

  /** Only the first skill with the configured name is read: the skills after it do not matter. */
  lemma FirstSkillDecides(t: DocType, c: TypeConfig, skills: seq<Skill>, i: nat, later: seq<Skill>, fileName: string, normalise: string -> string)
    requires i < |skills| && skills[i].name == c.skillName
    requires forall j | 0 <= j < i :: skills[j].name != c.skillName
    ensures ExtractWith(t, c, skills, fileName, normalise) == ExtractWith(t, c, skills[..i + 1] + later, fileName, normalise)
  {
    FindSkillPrefix(skills, i, later, c.skillName);
  }

  /**
   * A success carries status "original", an empty `docId`, the type's name
   * and the file name.
   */
  lemma ExtractedRecordHeader(t: DocType, c: TypeConfig, skills: seq<Skill>, fileName: string, normalise: string -> string)
    requires ValidConfig(c)
    requires ExtractWith(t, c, skills, fileName, normalise).Extracted?
    ensures var rec := ExtractWith(t, c, skills, fileName, normalise).record;
      && "status" in rec && rec["status"] == "original"
      && "docId" in rec && rec["docId"] == ""
      && "document_type" in rec && rec["document_type"] == TypeName(t)
      && "filename" in rec && rec["filename"] == fileName
  {
    var skill := FindSkill(skills, c.skillName).value;
    var init := InitialRecord(t, c, fileName);
    var record := Filled(t, c, fileName, skill, normalise);
    assert ExtractWith(t, c, skills, fileName, normalise).record == record["status" := "original"];
    forall k | IsReserved(k) && k != "status"
      ensures k in init && k in record && record[k] == init[k]
    {
      InitialRecordShape(t, c, fileName, k);
      FilledKeepsUnmapped(init, skill.labels, c.labelMap, c.dateFields, normalise, k);
    }
    InitialRecordShape(t, c, fileName, "document_type");
    InitialRecordShape(t, c, fileName, "filename");
    InitialRecordShape(t, c, fileName, "docId");
  }

  /** A success has every required field, with a value other than "N/A" and "". */
  lemma ExtractedFieldsPresent(t: DocType, c: TypeConfig, skills: seq<Skill>, fileName: string, normalise: string -> string, k: string)
    requires ValidConfig(c)
    requires ExtractWith(t, c, skills, fileName, normalise).Extracted?
    requires k in c.requiredFields
    ensures var rec := ExtractWith(t, c, skills, fileName, normalise).record;
      k in rec && rec[k] != FieldValue.NA && rec[k] != ""
  {
    var skill := FindSkill(skills, c.skillName).value;
    var init := InitialRecord(t, c, fileName);
    var record := Filled(t, c, fileName, skill, normalise);
    assert ExtractWith(t, c, skills, fileName, normalise).record == record["status" := "original"];
    assert k != "status";
    InitialRecordShape(t, c, fileName, k);
    FilledValue(init, skill.labels, c.labelMap, c.dateFields, normalise, k);
    MissingFieldsMember(record, c.requiredFields, k);
  }

  /**
   * Once the skill is found, the document is rejected exactly when some
   * required field is blank, and the reason lists exactly those fields, in
   * declared order.
   */
  lemma MissingFieldsReported(t: DocType, c: TypeConfig, skills: seq<Skill>, fileName: string, normalise: string -> string, k: string)
    requires FindSkill(skills, c.skillName).Some?
    ensures var record := Filled(t, c, fileName, FindSkill(skills, c.skillName).value, normalise);
      var blank := MissingFields(record, c.requiredFields);
      && (blank == [] <==> ExtractWith(t, c, skills, fileName, normalise).Extracted?)
      && (blank != [] ==> ExtractWith(t, c, skills, fileName, normalise).reason == MissingMessage(blank))
      && (k in blank <==> k in c.requiredFields && k in record && (record[k] == FieldValue.NA || record[k] == ""))
  {
    var record := Filled(t, c, fileName, FindSkill(skills, c.skillName).value, normalise);
    MissingFieldsMember(record, c.requiredFields, k);
  }

  /**
   * Date parsing touches only the type's date fields: after extraction a
   * required field holds what the labels wrote, normalised when it is a
   * date field.
   */
  lemma FieldsComeFromLabels(t: DocType, c: TypeConfig, skills: seq<Skill>, fileName: string, normalise: string -> string, k: string)
    requires ValidConfig(c)
    requires ExtractWith(t, c, skills, fileName, normalise).Extracted?
    requires k in c.requiredFields
    ensures var skill := FindSkill(skills, c.skillName).value;
      var read := Labels.Walk(InitialRecord(t, c, fileName), skill.labels, c.labelMap);
      var rec := ExtractWith(t, c, skills, fileName, normalise).record;
      k in read && k in rec && rec[k] == if k in c.dateFields && read[k] != FieldValue.NA then normalise(read[k]) else read[k]
  {
    var skill := FindSkill(skills, c.skillName).value;
    var record := Filled(t, c, fileName, skill, normalise);
    assert ExtractWith(t, c, skills, fileName, normalise).record == record["status" := "original"];
    assert k != "status";
    InitialRecordShape(t, c, fileName, k);
    FilledValue(InitialRecord(t, c, fileName), skill.labels, c.labelMap, c.dateFields, normalise, k);
  }

  /** A required field that no label of the skill writes leaves the document rejected. */
  lemma UnwrittenFieldRejects(t: DocType, c: TypeConfig, skills: seq<Skill>, fileName: string, normalise: string -> string, k: string)
    requires ValidConfig(c)
    requires k in c.requiredFields
    requires FindSkill(skills, c.skillName).Some?
    requires var flat := Labels.Preorder(FindSkill(skills, c.skillName).value.labels);
      forall j | 0 <= j < |flat| :: !Labels.Writes(flat[j], c.labelMap, k)
    ensures ExtractWith(t, c, skills, fileName, normalise).Rejected?
  {
    var skill := FindSkill(skills, c.skillName).value;
    var record := Filled(t, c, fileName, skill, normalise);
    InitialRecordShape(t, c, fileName, k);
    FilledUnwritten(InitialRecord(t, c, fileName), skill.labels, c.labelMap, c.dateFields, normalise, k);
    MissingFieldsMember(record, c.requiredFields, k);
  }

  /** A W-2 has no date fields: its outcome does not depend on the date normaliser. */
  lemma W2DatesUntouched(skills: seq<Skill>, fileName: string, normalise: string -> string, other: string -> string)
    ensures ExtractWith(W2, Config(W2), skills, fileName, normalise) == ExtractWith(W2, Config(W2), skills, fileName, other)
  {
    assert Config(W2).dateFields == [];
  }

  // ---------------------------------------------------------------------
  // The same promises for a document as read from its file

  /**
   * A document without its type's skill is rejected with the skill's name,
   * whatever the fallback date parser.
   */
  lemma DocumentWithoutSkill(doc: Document, fileName: string, fallback: string -> Option<string>, other: string -> Option<string>)
    requires forall i | 0 <= i < |doc.summary| :: doc.summary[i].name != SkillName(Classify.IdentifyDocumentType(doc))
    ensures ExtractSpec(doc, fileName, fallback) ==
      Rejected(Classify.IdentifyDocumentType(doc), SkillNotFound(SkillName(Classify.IdentifyDocumentType(doc))))
    ensures ExtractSpec(doc, fileName, fallback) == ExtractSpec(doc, fileName, other)
  {
    var t := Classify.IdentifyDocumentType(doc);
    SkillMissingRejects(t, Config(t), doc.summary, FileNameField(doc, fileName), DateNormaliser(fallback), DateNormaliser(other));
  }

  /**
   * An extracted document is marked "original", has an empty `docId`, its
   * identified type, its cleaned file name with ".json", and a value other
   * than "N/A" and "" in every required field.
   */
  lemma ExtractedDocument(doc: Document, fileName: string, fallback: string -> Option<string>, k: string)
    requires ExtractSpec(doc, fileName, fallback).Extracted?
    ensures var rec := ExtractSpec(doc, fileName, fallback).record;
      && "status" in rec && rec["status"] == "original"
      && "docId" in rec && rec["docId"] == ""
      && "document_type" in rec && rec["document_type"] == TypeName(Classify.IdentifyDocumentType(doc))
      && "filename" in rec && rec["filename"] == FileNameField(doc, fileName)
    ensures var rec := ExtractSpec(doc, fileName, fallback).record;
      k in RequiredKeys(Classify.IdentifyDocumentType(doc)) ==> k in rec && rec[k] != FieldValue.NA && rec[k] != ""
  {
    var t := Classify.IdentifyDocumentType(doc);
    ConfigShape(t);
    ExtractedRecordHeader(t, Config(t), doc.summary, FileNameField(doc, fileName), DateNormaliser(fallback));
    if k in RequiredKeys(t) {
      ExtractedFieldsPresent(t, Config(t), doc.summary, FileNameField(doc, fileName), DateNormaliser(fallback), k);
    }
  }
}
