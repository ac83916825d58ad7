/** The cache manager's global dirty page counters, which all streams share. */
module CacheGlobals {

  /** CcTotalDirtyPages and CcPagesYetToWrite. */
  class Globals {
    var totalDirtyPages: int
    var pagesYetToWrite: nat
  }

  /** A countdown that stops at zero. */
  function Less(count: nat, pages: int): nat {
    if count > pages then count - pages else 0
  }

  datatype Option<T> = None | Some(value: T)
}
