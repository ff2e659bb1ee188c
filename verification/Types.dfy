/** Types as the backend sees them, and the table of record and choice layouts they refer to. */
module Types {
  import opened Ints

  type Text = seq<byte>

  datatype Ty =
    | Unit
    | Bool
    | Int
    | Str
    | List(element: Ty)
    | Aggregate(layout: nat)
    | Capability
    | Closure

  datatype Field = Field(name: Text, ty: Ty)

  datatype Variant = Variant(name: Text, fields: seq<Field>)

  /** One shape for records and choices: a record is a layout with a single variant. */
  datatype Layout = Layout(variants: seq<Variant>, choice: bool) {
    /** Only a layout of several variants stores which one it is. */
    predicate Tagged() { |variants| > 1 }
  }
}
