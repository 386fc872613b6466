/** Small facts about sequences used by the folds over records, links and edges. */
module Seqs {

  /** A non-empty sequence is its front followed by its last element. */
  lemma FrontLast<T>(s: seq<T>)
    requires |s| > 0
    ensures s == s[..|s| - 1] + [s[|s| - 1]]
  {
  }

  /** The suffix from `k` is its first element followed by the suffix after it. */
  lemma ConsTail<T>(s: seq<T>, k: nat)
    requires k < |s|
    ensures s[k..] == [s[k]] + s[k + 1..]
  {
  }

  /** The suffix from 0 is the whole sequence. */
  lemma WholeSlice<T>(s: seq<T>)
    ensures s[0..] == s
  {
  }
}
