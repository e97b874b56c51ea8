/**
 * The commit record handed to the layout by the history fetch
 * (src-tauri/src/bindings.rs). Only the fields that the layout and the
 * graph renderer read are kept.
 */
module Bindings {

  datatype Commit = Commit(
    commitId: string,
    parents: seq<string>,
    isImmutable: bool,
    isWorkingCopy: bool)
}
