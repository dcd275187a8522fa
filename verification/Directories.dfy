/** Directories of a hierarchy, as the names on the way down from its top. */
module Directories {

  type Dir = seq<string>

  /** `filepath.Dir`: the top is its own parent. */
  function Parent(d: Dir): Dir {
    if d == [] then [] else d[..|d| - 1]
  }
}
