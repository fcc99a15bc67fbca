/**
 * Document-type classification (`identify_document_type`, main.py:208-242).
 *
 * Indicators in the metadata type or the title come first, w2 before 1120;
 * then the first skill whose lower-cased name contains a type marker; then
 * a skill with one of three exact names; `paystub` when nothing applies.
 */
module Classify {
  import opened Wrappers
  import opened Strings
  import opened Documents

  const W2_INDICATORS: seq<string> := ["w2", "w-2", "income w-2"]
  const FORM1120_INDICATORS: seq<string> := ["1120", "form 1120"]

  /** Some indicator occurs in the (lower-cased) metadata type or title. */
  predicate AnyIndicator(indicators: seq<string>, metaType: string, title: string) {
    exists i | 0 <= i < |indicators| :: Contains(metaType, indicators[i]) || Contains(title, indicators[i])
  }

  /** The type a skill name points to by substring, checked in the order 1120, w2, paystub. */
  function SkillNameType(name: string): Option<DocType> {
    var n := Lower(name);
    if Contains(n, "1120") then Some(Form1120)
    else if Contains(n, "w2") || Contains(n, "w-2") then Some(W2)
    else if Contains(n, "paystub") then Some(Paystub)
    else None
  }

  /** The first loop over the skills: the first skill whose name points to a type decides. */
  function NameScan(skills: seq<Skill>): Option<DocType> {
    if skills == [] then None
    else if SkillNameType(skills[0].name).Some? then SkillNameType(skills[0].name)
    else NameScan(skills[1..])
  }

  /** The type an exact skill name stands for. */
  function ExactNameType(name: string): Option<DocType> {
    if name == "IC - 1120" then Some(Form1120)
    else if name == "IC - W2" then Some(W2)
    else if name == "IC - Paystubs" then Some(Paystub)
    else None
  }

  /** The second loop over the skills: the first skill with an exact name decides. */
  function ExactScan(skills: seq<Skill>): Option<DocType> {
    if skills == [] then None
    else if ExactNameType(skills[0].name).Some? then ExactNameType(skills[0].name)
    else ExactScan(skills[1..])
  }

  /** `identify_document_type` (main.py:208-242). */
  function IdentifyDocumentType(doc: Document): (r: DocType)
    ensures AnyIndicator(W2_INDICATORS, Lower(doc.metaType), Lower(doc.title)) ==> r == W2
  {
    var metaType, title := Lower(doc.metaType), Lower(doc.title);
    if AnyIndicator(W2_INDICATORS, metaType, title) then W2
    else if AnyIndicator(FORM1120_INDICATORS, metaType, title) then Form1120
    else match NameScan(doc.summary)
      case Some(t) => t
      case None => ExactScan(doc.summary).GetOr(Paystub)
  }

  // ---------------------------------------------------------------------
  // The skill scans

  /**
   * `NameScan` returns the type of the first skill whose name points to one,
   * and nothing when no skill does.
   */
  lemma {:induction false} NameScanFirst(skills: seq<Skill>)
    ensures NameScan(skills) == None <==>
      forall i | 0 <= i < |skills| :: SkillNameType(skills[i].name) == None
    ensures NameScan(skills).Some? ==>
      exists i | 0 <= i < |skills| ::
        && SkillNameType(skills[i].name) == NameScan(skills)
        && forall j | 0 <= j < i :: SkillNameType(skills[j].name) == None
  {
    if skills != [] && SkillNameType(skills[0].name) == None {
      NameScanFirst(skills[1..]);
      if NameScan(skills[1..]).Some? {
        var i :| 0 <= i < |skills[1..]| && SkillNameType(skills[1..][i].name) == NameScan(skills[1..])
          && forall j | 0 <= j < i :: SkillNameType(skills[1..][j].name) == None;
        assert SkillNameType(skills[i + 1].name) == NameScan(skills);
        forall j | 0 <= j < i + 1
          ensures SkillNameType(skills[j].name) == None
        {
          if j > 0 { assert skills[j] == skills[1..][j - 1]; }
        }
      } else {
        forall i | 0 <= i < |skills|
          ensures SkillNameType(skills[i].name) == None
        {
          if i > 0 { assert skills[i] == skills[1..][i - 1]; }
        }
      }
    }
  }

  /** Each exact name contains a type marker, so the first scan already stops at it. */
  lemma ExactNamesHaveMarkers(name: string)
    requires ExactNameType(name).Some?
    ensures SkillNameType(name).Some?
  {
    if name == "IC - 1120" {
      MarkedName(name, "ic - ", "1120", "");
    } else if name == "IC - W2" {
      MarkedName(name, "ic - ", "w2", "");
    } else {
      MarkedName(name, "ic - ", "paystub", "s");
    }
  }

  /** A name whose lower-cased form is built around `marker` contains it. */
  lemma MarkedName(name: string, p: string, marker: string, q: string)
    requires |name| == |p + marker + q|
    requires forall i | 0 <= i < |name| :: LowerChar(name[i]) == (p + marker + q)[i]
    ensures Contains(Lower(name), marker)
  {
    LowerAt(name);
    assert Lower(name) == p + marker + q;
    ContainsInfix(p, marker, q);
  }

  /** When the first scan finds nothing, the exact-name scan finds nothing either. */
  lemma {:induction false} ExactScanRedundant(skills: seq<Skill>)
    requires NameScan(skills) == None
    ensures ExactScan(skills) == None
  {
    if skills != [] {
      if ExactNameType(skills[0].name).Some? {
        ExactNamesHaveMarkers(skills[0].name);
      }
      ExactScanRedundant(skills[1..]);
    }
  }

  // ---------------------------------------------------------------------
  // The precedence chain

  /**
   * The classification as a precedence chain without the exact-name loop:
   * w2 indicators, then 1120 indicators, then the first marked skill name,
   * then `paystub`.
   */
  lemma IdentifyByPrecedence(doc: Document)
    ensures var metaType, title := Lower(doc.metaType), Lower(doc.title);
      IdentifyDocumentType(doc) ==
        if AnyIndicator(W2_INDICATORS, metaType, title) then W2
        else if AnyIndicator(FORM1120_INDICATORS, metaType, title) then Form1120
        else NameScan(doc.summary).GetOr(Paystub)
  {
    if NameScan(doc.summary) == None {
      ExactScanRedundant(doc.summary);
    }
  }

  /** An indicator in the metadata type or title decides, whatever the skills are. */
  lemma MetadataBeatsSkills(doc: Document, skills: seq<Skill>)
    requires
      || AnyIndicator(W2_INDICATORS, Lower(doc.metaType), Lower(doc.title))
      || AnyIndicator(FORM1120_INDICATORS, Lower(doc.metaType), Lower(doc.title))
    ensures IdentifyDocumentType(doc.(summary := skills)) == IdentifyDocumentType(doc)
  {
  }

  /**
   * Without indicators, the first skill whose name carries a marker decides,
   * whatever follows it.
   */
  lemma FirstMarkedSkillDecides(doc: Document, i: nat)
    requires !AnyIndicator(W2_INDICATORS, Lower(doc.metaType), Lower(doc.title))
    requires !AnyIndicator(FORM1120_INDICATORS, Lower(doc.metaType), Lower(doc.title))
    requires i < |doc.summary| && SkillNameType(doc.summary[i].name).Some?
    requires forall j | 0 <= j < i :: SkillNameType(doc.summary[j].name) == None
    ensures IdentifyDocumentType(doc) == SkillNameType(doc.summary[i].name).value
  {
    IdentifyByPrecedence(doc);
    NameScanAt(doc.summary, i);
  }

  /** `NameScan` stops at the first marked skill. */
  lemma {:induction false} NameScanAt(skills: seq<Skill>, i: nat)
    requires i < |skills| && SkillNameType(skills[i].name).Some?
    requires forall j | 0 <= j < i :: SkillNameType(skills[j].name) == None
    ensures NameScan(skills) == SkillNameType(skills[i].name)
  {
    if i > 0 {
      assert SkillNameType(skills[0].name) == None;
      NameScanAt(skills[1..], i - 1);
    }
  }

  /** With no indicator and no marked skill name, the type is `paystub`. */
  lemma DefaultIsPaystub(doc: Document)
    requires !AnyIndicator(W2_INDICATORS, Lower(doc.metaType), Lower(doc.title))
    requires !AnyIndicator(FORM1120_INDICATORS, Lower(doc.metaType), Lower(doc.title))
    requires forall j | 0 <= j < |doc.summary| :: SkillNameType(doc.summary[j].name) == None
    ensures IdentifyDocumentType(doc) == Paystub
  {
    IdentifyByPrecedence(doc);
    NameScanFirst(doc.summary);
  }
}
