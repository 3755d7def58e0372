/** The record shapes of src/types.ts. An optional property (`description?`, `language?`)
    is an `Option`. */
module Types {
  import opened Common

  /** A stored snippet. `normalizedHash` is the fingerprint of the normal form of `code`;
      `createdAt` and `updatedAt` are ISO timestamps. */
  datatype Snippet = Snippet(
    id: string,
    name: string,
    description: Option<string>,
    code: string,
    keyTerms: seq<string>,
    language: Option<string>,
    normalizedHash: string,
    createdAt: string,
    updatedAt: string)

  /** The snippets a candidate collides with: one with the same name, one with the same
      content. */
  datatype DuplicateConflicts = DuplicateConflicts(byName: Option<Snippet>, byContent: Option<Snippet>) {

    /** `conflicts.byName || conflicts.byContent`: is there any collision? */
    predicate Any() {
      byName.Some? || byContent.Some?
    }
  }
}
