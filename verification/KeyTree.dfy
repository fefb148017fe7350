/** What the key streams store: trees of strings, 32-bit numbers, objects and arrays
    (the interface of src/lib/osCore/include/osCore/Serialization/KeyStream.h). */
module KeyTree {
  import opened Decimal

  datatype Tree = Str(text: string) | Num(number: Int32) | Obj(members: seq<(string, Tree)>) | Arr(elements: seq<Tree>)

  /** What a reader expects: row `i` of an array is read with rows[i], later rows with `rest`. */
  datatype Schema = SStr | SNum | SObj(members: seq<(string, Schema)>) | SArr(rows: seq<Schema>, rest: Schema)

  function RowSchema(sc: Schema, i: nat): Schema
    requires sc.SArr?
  {
    if i < |sc.rows| then sc.rows[i] else sc.rest
  }

  ghost predicate Conforms(t: Tree, sc: Schema) {
    match t
    case Str(_) => sc.SStr?
    case Num(_) => sc.SNum?
    case Obj(members) =>
      && sc.SObj?
      && |sc.members| == |members|
      && forall k :: 0 <= k < |members| ==> members[k].0 == sc.members[k].0 && Conforms(members[k].1, sc.members[k].1)
    case Arr(elements) => sc.SArr? && forall k :: 0 <= k < |elements| ==> Conforms(elements[k], RowSchema(sc, k))
  }

  /** What a reader of this very tree expects. */
  function SchemaOf(t: Tree): Schema {
    match t
    case Str(_) => SStr
    case Num(_) => SNum
    case Obj(members) =>
      SObj(seq(|members|, i requires 0 <= i < |members| => (members[i].0, SchemaOf(members[i].1))))
    case Arr(elements) =>
      SArr(seq(|elements|, i requires 0 <= i < |elements| => SchemaOf(elements[i])), SStr)
  }

  /** Every tree can be read by some reader. */
  lemma {:induction false} ConformsToSchema(t: Tree)
    ensures Conforms(t, SchemaOf(t))
  {
    match t
    case Obj(members) =>
      forall k | 0 <= k < |members|
        ensures Conforms(members[k].1, SchemaOf(t).members[k].1)
      {
        ConformsToSchema(members[k].1);
      }
    case Arr(elements) =>
      forall k | 0 <= k < |elements|
        ensures Conforms(elements[k], RowSchema(SchemaOf(t), k))
      {
        ConformsToSchema(elements[k]);
      }
    case _ =>
  }

  datatype Format = JsonFormat | XmlFormat

  const ARRAY_SUFFIX := "_array"

  predicate EndsWith(s: string, suffix: string) {
    |s| >= |suffix| && s[|s| - |suffix|..] == suffix
  }

  /** The keys a format can address. */
  ghost predicate KeyAllowed(key: string, format: Format) {
    && key != ""
    && match format
       case JsonFormat => '/' !in key && '~' !in key
       case XmlFormat => !EndsWith(key, ARRAY_SUFFIX)
  }

  ghost predicate DistinctNames(members: seq<(string, Tree)>) {
    forall i, j :: 0 <= i < j < |members| ==> members[i].0 != members[j].0
  }

  /** Sibling keys are distinct and allowed; JSON row numbers fit an int. */
  ghost predicate Writable(t: Tree, format: Format) {
    match t
    case Obj(members) =>
      && DistinctNames(members)
      && forall k :: 0 <= k < |members| ==> KeyAllowed(members[k].0, format) && Writable(members[k].1, format)
    case Arr(elements) =>
      && (format.JsonFormat? ==> |elements| <= INT_MAX)
      && forall k :: 0 <= k < |elements| ==> Writable(elements[k], format)
    case _ => true
  }
}
