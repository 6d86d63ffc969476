/** The data of the best-match scan in correlate.py: a scored peer, and the
    result for one user, which the scan produces and the output writes. */
module Matches {

  datatype Option<T> = None | Some(value: T)

  /** A scored peer, as the tuple (id2, pcc, ncommon) of the source. */
  datatype Match = Match(peer: int, pcc: real, ncommon: int)

  /** The result for one user: the user and their best match, if any. */
  datatype Line = Line(user: int, best: Option<Match>)
}
