/**
 * The input documents and the three document types.
 *
 * A document is the parsed JSON of one extraction result. Only the parts the
 * pipeline reads are kept: the `Meta` object's `FileName` and `Type`, the
 * `Title`, and the `Summary` list of skills, each holding a tree of labels.
 * A key that is absent is given the default the code reads it with
 * (`""` for `Type`, `Title` and `SkillName`, `"N/A"` for a value), except
 * `FileName`, whose default is the file's own name and is therefore optional.
 */
module Documents {
  import opened Wrappers

  /** One entry of a label tree: `LabelName`, the `Value` of each item of `Values`, `ChildLabels`. */
  datatype Label = Label(name: string, values: seq<string>, children: seq<Label>)

  /** One entry of `Summary`: `SkillName` and `Labels`. */
  datatype Skill = Skill(name: string, labels: seq<Label>)

  /** A parsed input file. */
  datatype Document = Document(
    fileName: Option<string>,
    metaType: string,
    title: string,
    summary: seq<Skill>)

  /** The three document types. */
  datatype DocType = Paystub | W2 | Form1120

  /** The type's name as the pipeline writes it. */
  function TypeName(t: DocType): (r: string)
    ensures r in {"paystub", "w2", "1120"}
  {
    match t
    case Paystub => "paystub"
    case W2 => "w2"
    case Form1120 => "1120"
  }

  /** A record of the output: field name to value. */
  type Record = map<string, string>

  /**
   * The record under construction (`base_data`): a dictionary that the
   * extraction steps update in place.
   */
  class BaseData {
    var fields: Record

    constructor (initial: Record)
      ensures fields == initial
    {
      fields := initial;
    }
  }
}
