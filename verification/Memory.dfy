/** A memory entry, as the store keeps it. */
module Memory {
  import opened Wrappers

  // Entries are identified by their place in the order of creation.
  datatype Entry = Entry(
    scope: string, owner: string, kind: string, content: string, importance: int, tags: seq<string>,
    supersedes: Option<nat>, archived: bool, updatedAt: int, accessCount: nat, expiresAt: Option<int>)
}
