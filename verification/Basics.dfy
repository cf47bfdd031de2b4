/**
 What several modules share.
 */
module Basics {
  datatype Option<+T> = None | Some(value: T)
  {
    function GetOr(default: T): T {
      if Some? then value else default
    }
  }

  ghost predicate Distinct(s: seq<nat>) {
    forall i, k | 0 <= i < k < |s| :: s[i] != s[k]
  }
}
