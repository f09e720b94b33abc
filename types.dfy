/** The records of src/types/index.ts. */
module Types {

  import opened Wrappers

  /** `CacheCategory`: an absent `command` or `isAutoDiscovered` is `None`
      and `false`. */
  datatype CacheCategory = CacheCategory(
    name: string,
    paths: seq<string>,
    requiresSudo: bool,
    warning: Option<string>,
    command: Option<string>,
    isAutoDiscovered: bool)

  /** The truthiness test `if (category.command)`: present and non-empty. */
  predicate HasCommand(command: Option<string>)
  {
    command.Some? && command.value != ""
  }

  /** `CacheResult`: a scanned category with its measured size in bytes
      and the paths that measured above zero. */
  datatype CacheResult = CacheResult(
    key: string,
    name: string,
    size: nat,
    paths: seq<string>,
    requiresSudo: bool,
    warning: Option<string>,
    command: Option<string>,
    isAutoDiscovered: bool)
}
