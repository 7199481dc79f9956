/** The product-scope item that the planner, the mint and the scope verbs all work on. */
module ScopeItem {
  import Text

  type Id = string

  /** A label as `_label` reads it: stripped. */
  type Label = s: string | Text.Trimmed(s)

  /** A scope item, or an incoming one: its id (empty if new), its label, its title, and what it depends on. */
  datatype Item = Item(id: Id, tag: Label, title: string, depends: seq<Id>) {
    function Key(): Id { if id != "" then id else tag }

    predicate Names(d: Id) { Key() == d || tag == d }
  }
}
