/** The model metadata the Redis backend reads (`meta`): the model key, the optional
    ordering, the indexed fields, the structure fields and the related managers. */
module Models {
  import opened Wrappers

  /** `meta.ordering`: the field a model is sorted by, and its direction. */
  datatype Ordering = Ordering(name: string, desc: bool)

  /** An entry of `meta.indices`. */
  datatype Index = Index(attname: string, unique: bool)

  /** An entry of `meta.related`: a manager of the same model (a self relation, found by
      `rmanager.model == meta.model`) or of another model, whose metadata it carries.
      Holding the target's metadata makes the relation graph a tree: the delete
      cascade, which has no cycle guard, is only modelled for acyclic graphs. */
  datatype Rel =
    | SelfRel(attname: string)
    | CrossRel(attname: string, target: Meta)

  datatype Meta = Meta(
    modelkey: string,
    ordering: Option<Ordering>,
    indices: seq<Index>,
    multifields: seq<string>,
    related: seq<Rel>)

  /** `'z' if meta.ordering else 's'`: the sorted-set family for ordered models. */
  function Family(m: Meta): (p: string)
    ensures p == "z" <==> m.ordering.Some?
    ensures p == "z" || p == "s"
  {
    if m.ordering.Some? then "z" else "s"
  }
}
