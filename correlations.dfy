/** ComputeCorrelations in correlate.py: for every user, in ascending id
    order, scan all other users, keep those sharing at least `threshold`
    rated items, and retain the first one with the greatest score. The
    order in which the inner loop visits the store's dict is not fixed by
    the source; it is the parameter `order`, the same for every user. */
module Correlations {
  import opened Sums
  import opened Ratings
  import opened Pearson
  import opened Matches
  import opened Output

  /** A candidate may replace the running best only if it is another user
      and shares at least `threshold` items. */
  predicate Qualifies(c: Match, user: int, threshold: int)
  {
    c.peer != user && c.ncommon >= threshold
  }

  /** The running best after the scan has seen the candidates cs, in order:
      self is skipped, a candidate below the threshold is skipped, and a
      candidate replaces the running best when there is none yet or when its
      score is strictly greater. */
  function Best(cs: seq<Match>, user: int, threshold: int): Option<Match>
    decreases |cs|
  {
    if cs == [] then None
    else
      var best := Best(cs[..|cs| - 1], user, threshold);
      var c := cs[|cs| - 1];
      if c.peer == user then best
      else if c.ncommon < threshold then best
      else if (best.Some? && c.pcc > best.value.pcc) || best.None? then Some(c)
      else best
  }

  /** The kept match is one of the candidates, never the user itself, and
      meets the threshold. */
  lemma {:induction false} BestQualifies(cs: seq<Match>, user: int, threshold: int)
    ensures Best(cs, user, threshold).Some? ==>
      Best(cs, user, threshold).value in cs && Qualifies(Best(cs, user, threshold).value, user, threshold)
    decreases |cs|
  {
    if cs != [] {
      var init := cs[..|cs| - 1];
      BestQualifies(init, user, threshold);
      if Best(cs, user, threshold) == Best(init, user, threshold) && Best(init, user, threshold).Some? {
        var i :| 0 <= i < |init| && init[i] == Best(init, user, threshold).value;
        assert cs[i] == init[i];
      }
    }
  }

  /** The scan ends without a match exactly when no candidate qualifies. */
  lemma {:induction false} BestNoneIff(cs: seq<Match>, user: int, threshold: int)
    ensures Best(cs, user, threshold).None? <==>
      forall i :: 0 <= i < |cs| ==> !Qualifies(cs[i], user, threshold)
    decreases |cs|
  {
    if cs != [] {
      var init := cs[..|cs| - 1];
      BestNoneIff(init, user, threshold);
      forall i | 0 <= i < |init| ensures init[i] == cs[i] { }
    }
  }

  /** The kept score is at least the score of every qualifying candidate. */
  lemma {:induction false} BestIsMaximum(cs: seq<Match>, user: int, threshold: int)
    ensures Best(cs, user, threshold).Some? ==>
      forall i :: 0 <= i < |cs| && Qualifies(cs[i], user, threshold) ==>
        cs[i].pcc <= Best(cs, user, threshold).value.pcc
    decreases |cs|
  {
    if cs != [] {
      var init := cs[..|cs| - 1];
      BestIsMaximum(init, user, threshold);
      BestNoneIff(init, user, threshold);
      forall i | 0 <= i < |init| ensures init[i] == cs[i] { }
    }
  }

  /** Ties go to the earliest: the first qualifying candidate whose score no
      later qualifying candidate exceeds, and that strictly exceeds every
      earlier qualifying one, is the one kept. */
  lemma {:induction false} BestFirstWins(cs: seq<Match>, user: int, threshold: int, j: int)
    requires 0 <= j < |cs| && Qualifies(cs[j], user, threshold)
    requires forall i :: 0 <= i < j && Qualifies(cs[i], user, threshold) ==> cs[i].pcc < cs[j].pcc
    requires forall i :: j < i < |cs| && Qualifies(cs[i], user, threshold) ==> cs[i].pcc <= cs[j].pcc
    ensures Best(cs, user, threshold) == Some(cs[j])
    decreases |cs|
  {
    var n := |cs| - 1;
    var init := cs[..n];
    forall i | 0 <= i < n ensures init[i] == cs[i] { }
    if j < n {
      BestFirstWins(init, user, threshold, j);
    } else {
      BestQualifies(init, user, threshold);
      if Best(init, user, threshold).Some? {
        var i :| 0 <= i < n && init[i] == Best(init, user, threshold).value;
      }
    }
  }

  /** There is no positivity filter: if some candidate qualifies and every
      qualifying score is negative, a match with a negative score is kept. */
  lemma NegativeMatchKept(cs: seq<Match>, user: int, threshold: int, j: int)
    requires 0 <= j < |cs| && Qualifies(cs[j], user, threshold)
    requires forall i :: 0 <= i < |cs| && Qualifies(cs[i], user, threshold) ==> cs[i].pcc < 0.0
    ensures Best(cs, user, threshold).Some? && Best(cs, user, threshold).value.pcc < 0.0
  {
    BestNoneIff(cs, user, threshold);
    BestQualifies(cs, user, threshold);
  }

  /** ComputePCC's score as a function of the two profiles. */
  ghost function PccOf(root: real -> real): (Profile, Profile) -> real
    requires RootPositive(root)
  {
    (a, b) => Pcc(a, b, root)
  }

  /** How the scan scores one peer, for a scoring function pcc: the tuple
      (id2, pcc, ncommon). */
  function Score(users: map<int, Profile>, user: int, peer: int, pcc: (Profile, Profile) -> real): Match
    requires user in users && peer in users
  {
    Match(peer, pcc(users[user], users[peer]), |Common(users[user], users[peer])|)
  }

  /** The candidates in scan order: the i-th is the i-th peer, scored. */
  function Scores(users: map<int, Profile>, user: int, peers: seq<int>, pcc: (Profile, Profile) -> real): (cs: seq<Match>)
    requires user in users
    requires forall i :: 0 <= i < |peers| ==> peers[i] in users
    ensures |cs| == |peers|
    ensures forall i :: 0 <= i < |peers| ==> cs[i] == Score(users, user, peers[i], pcc)
  {
    seq(|peers|, i requires 0 <= i < |peers| => Score(users, user, peers[i], pcc))
  }

  /** What the scan of one user keeps, over the peers in the order given. */
  function Expected(users: map<int, Profile>, user: int, order: seq<int>, threshold: int,
                    pcc: (Profile, Profile) -> real): Option<Match>
    requires user in users
    requires forall i :: 0 <= i < |order| ==> order[i] in users
  {
    Best(Scores(users, user, order, pcc), user, threshold)
  }

  /** The inner loop visits every user of the store exactly once. */
  ghost predicate IsScanOrder(order: seq<int>, users: map<int, Profile>)
  {
    && Distinct(order)
    && (forall i :: 0 <= i < |order| ==> order[i] in users)
    && (forall u :: u in users ==> u in order)
  }

  /** A user gets no match exactly when no other user shares at least
      `threshold` items with them. */
  lemma NoMatchIffNoPeerMeetsThreshold(users: map<int, Profile>, user: int, order: seq<int>,
                                       threshold: int, pcc: (Profile, Profile) -> real)
    requires user in users && IsScanOrder(order, users)
    ensures Expected(users, user, order, threshold, pcc).None? <==>
      forall peer :: peer in users && peer != user ==> |Common(users[user], users[peer])| < threshold
  {
    var cs := Scores(users, user, order, pcc);
    BestNoneIff(cs, user, threshold);
    forall peer | peer in users && peer != user && Best(cs, user, threshold).None?
      ensures |Common(users[user], users[peer])| < threshold
    {
      var i :| 0 <= i < |order| && order[i] == peer;
      assert !Qualifies(cs[i], user, threshold);
    }
  }

  /** A threshold above the number of items the user rated leaves the user
      without a match. */
  lemma ThresholdAboveOwnCount(users: map<int, Profile>, user: int, order: seq<int>,
                               threshold: int, pcc: (Profile, Profile) -> real)
    requires user in users && IsScanOrder(order, users)
    requires threshold > |users[user].ratings|
    ensures Expected(users, user, order, threshold, pcc).None?
  {
    forall peer | peer in users && peer != user
      ensures |Common(users[user], users[peer])| < threshold
    {
      OverlapSymmetric(users[user], users[peer]);
    }
    NoMatchIffNoPeerMeetsThreshold(users, user, order, threshold, pcc);
  }

  /** A kept match is another user of the store, shares at least `threshold`
      items, and carries that user's score and overlap. */
  lemma ExpectedQualifies(users: map<int, Profile>, user: int, order: seq<int>,
                          threshold: int, pcc: (Profile, Profile) -> real)
    requires user in users && IsScanOrder(order, users)
    ensures var best := Expected(users, user, order, threshold, pcc);
      best.Some? ==>
        && best.value.peer in users && best.value.peer != user
        && best.value.ncommon == |Common(users[user], users[best.value.peer])| >= threshold
        && best.value.pcc == pcc(users[user], users[best.value.peer])
  {
    var cs := Scores(users, user, order, pcc);
    BestQualifies(cs, user, threshold);
    if Best(cs, user, threshold).Some? {
      var i :| 0 <= i < |cs| && cs[i] == Best(cs, user, threshold).value;
    }
  }

  /** No other user sharing at least `threshold` items scores higher than
      the kept match. */
  lemma ExpectedIsMaximum(users: map<int, Profile>, user: int, order: seq<int>,
                          threshold: int, pcc: (Profile, Profile) -> real, peer: int)
    requires user in users && IsScanOrder(order, users)
    requires peer in users && peer != user && |Common(users[user], users[peer])| >= threshold
    ensures Expected(users, user, order, threshold, pcc).Some?
    ensures pcc(users[user], users[peer]) <= Expected(users, user, order, threshold, pcc).value.pcc
  {
    var cs := Scores(users, user, order, pcc);
    var i :| 0 <= i < |order| && order[i] == peer;
    assert Qualifies(cs[i], user, threshold);
    BestNoneIff(cs, user, threshold);
    BestIsMaximum(cs, user, threshold);
  }

  /** Among equal best scores the peer met first in scan order is kept: a
      qualifying peer that beats every qualifying peer before it and is not
      beaten by any after it is the match. */
  lemma ExpectedFirstWins(users: map<int, Profile>, user: int, order: seq<int>,
                          threshold: int, pcc: (Profile, Profile) -> real, j: int)
    requires user in users && IsScanOrder(order, users)
    requires 0 <= j < |order| && order[j] != user
    requires |Common(users[user], users[order[j]])| >= threshold
    requires forall i :: 0 <= i < j && order[i] != user && |Common(users[user], users[order[i]])| >= threshold ==>
      pcc(users[user], users[order[i]]) < pcc(users[user], users[order[j]])
    requires forall i :: j < i < |order| && order[i] != user && |Common(users[user], users[order[i]])| >= threshold ==>
      pcc(users[user], users[order[i]]) <= pcc(users[user], users[order[j]])
    ensures Expected(users, user, order, threshold, pcc) == Some(Score(users, user, order[j], pcc))
  {
    var cs := Scores(users, user, order, pcc);
    BestFirstWins(cs, user, threshold, j);
  }

  /** When one qualifying peer scores strictly higher than every other
      qualifying peer, it is the match, whatever order the scan visits the
      store in. */
  lemma ExpectedUniqueMaximum(users: map<int, Profile>, user: int, order: seq<int>,
                              threshold: int, pcc: (Profile, Profile) -> real, peer: int)
    requires user in users && IsScanOrder(order, users)
    requires peer in users && peer != user && |Common(users[user], users[peer])| >= threshold
    requires forall q :: q in users && q != user && q != peer && |Common(users[user], users[q])| >= threshold ==>
      pcc(users[user], users[q]) < pcc(users[user], users[peer])
    ensures Expected(users, user, order, threshold, pcc) == Some(Score(users, user, peer, pcc))
  {
    ExpectedIsMaximum(users, user, order, threshold, pcc, peer);
    ExpectedQualifies(users, user, order, threshold, pcc);
  }

  /** The inner loop of ComputeCorrelations: the best match of one user. The
      ghost parameter pcc names ComputePCC's score, which it must agree with. */
  method BestMatch(users: map<int, Profile>, user: int, order: seq<int>, threshold: int,
                   root: real -> real, ghost pcc: (Profile, Profile) -> real)
    returns (best: Option<Match>)
    requires user in users && RootPositive(root)
    requires forall a, b {:trigger Pcc(a, b, root)} :: pcc(a, b) == Pcc(a, b, root)
    requires forall i :: 0 <= i < |order| ==> order[i] in users
    ensures best == Expected(users, user, order, threshold, pcc)
  {
    ghost var cs := Scores(users, user, order, pcc);
    best := None;
    for i := 0 to |order|
      invariant best == Best(cs[..i], user, threshold)
    {
      var peer := order[i];
      assert cs[..i + 1][..i] == cs[..i];
      if user == peer {
        continue;
      }
      var score, ncommon := ComputePCC(users[user], users[peer], root);
      if ncommon >= threshold {
        if (best.Some? && score > best.value.pcc) || best.None? {
          best := Some(Match(peer, score, ncommon));
        }
      }
    }
    assert cs[..|order|] == cs;
  }

  /** A smallest element of a non-empty set of ids. */
  lemma {:induction false} MinimumExists(s: set<int>)
    requires s != {}
    ensures exists m :: m in s && forall u :: u in s ==> m <= u
    decreases |s|
  {
    NonEmptyHasElement(s);
    var k :| k in s;
    if s - {k} != {} {
      MinimumExists(s - {k});
      var m :| m in s - {k} && forall u :: u in s - {k} ==> m <= u;
      var least := if k < m then k else m;
      forall u | u in s ensures least <= u {
        if u != k {
          assert u in s - {k};
        }
      }
      assert least in s;
    } else {
      forall u | u in s ensures k <= u {
        assert u !in s - {k};
      }
    }
  }

  /** sorted(users): the ids in strictly ascending order. */
  method SortedIds(ids: set<int>) returns (sorted: seq<int>)
    ensures |sorted| == |ids|
    ensures forall i, j :: 0 <= i < j < |sorted| ==> sorted[i] < sorted[j]
    ensures forall u :: u in ids <==> u in sorted
  {
    sorted := [];
    var rest := ids;
    while rest != {}
      invariant rest <= ids
      invariant |sorted| + |rest| == |ids|
      invariant forall u :: u in ids <==> u in rest || u in sorted
      invariant forall i, j :: 0 <= i < j < |sorted| ==> sorted[i] < sorted[j]
      invariant forall i, u :: 0 <= i < |sorted| && u in rest ==> sorted[i] < u
      decreases |rest|
    {
      MinimumExists(rest);
      var m :| m in rest && forall u :: u in rest ==> m <= u;
      sorted := sorted + [m];
      rest := rest - {m};
    }
  }

  /** The lines for the users ids, in that order, each with the match
      bestOf gives for that user. */
  function LinesFor(ids: seq<int>, bestOf: int -> Option<Match>): seq<Line>
    decreases |ids|
  {
    if ids == [] then []
    else
      var n := |ids| - 1;
      LinesFor(ids[..n], bestOf) + [Line(ids[n], bestOf(ids[n]))]
  }

  /** One line per id, in the order of the ids. */
  lemma {:induction false} LinesForUsers(ids: seq<int>, bestOf: int -> Option<Match>)
    ensures |LinesFor(ids, bestOf)| == |ids|
    ensures forall i :: 0 <= i < |ids| ==> LinesFor(ids, bestOf)[i].user == ids[i]
    decreases |ids|
  {
    if ids != [] {
      LinesForUsers(ids[..|ids| - 1], bestOf);
    }
  }

  /** The i-th line holds the i-th id's match. */
  lemma {:induction false} LinesForBest(ids: seq<int>, bestOf: int -> Option<Match>, i: int)
    requires 0 <= i < |ids|
    ensures |LinesFor(ids, bestOf)| == |ids|
    ensures LinesFor(ids, bestOf)[i].best == bestOf(ids[i])
    decreases |ids|
  {
    var n := |ids| - 1;
    LinesForUsers(ids[..n], bestOf);
    if i < n {
      LinesForBest(ids[..n], bestOf, i);
    }
  }

  /** Expected as a function of the user, for the users of the store. */
  function ExpectedOf(users: map<int, Profile>, order: seq<int>, threshold: int,
                      pcc: (Profile, Profile) -> real): int -> Option<Match>
    requires forall i :: 0 <= i < |order| ==> order[i] in users
  {
    u => if u in users then Expected(users, u, order, threshold, pcc) else None
  }

  /** Lines for the store's ids sorted ascending: one per user, in ascending
      order, each holding that user's best match. */
  lemma LinesForSorted(users: map<int, Profile>, ids: seq<int>, order: seq<int>, threshold: int,
                       pcc: (Profile, Profile) -> real)
    requires forall i :: 0 <= i < |order| ==> order[i] in users
    requires |ids| == |users|
    requires forall i, j :: 0 <= i < j < |ids| ==> ids[i] < ids[j]
    requires forall u :: u in users.Keys <==> u in ids
    ensures var lines := LinesFor(ids, ExpectedOf(users, order, threshold, pcc));
      && |lines| == |users|
      && (forall i, j :: 0 <= i < j < |lines| ==> lines[i].user < lines[j].user)
      && (forall u :: u in users <==> exists i :: 0 <= i < |lines| && lines[i].user == u)
      && (forall i :: 0 <= i < |lines| ==> lines[i].user in users)
      && (forall i :: 0 <= i < |lines| ==> lines[i].best == Expected(users, lines[i].user, order, threshold, pcc))
  {
    var bestOf := ExpectedOf(users, order, threshold, pcc);
    var lines := LinesFor(ids, bestOf);
    LinesForUsers(ids, bestOf);
    forall u | u in users ensures exists i :: 0 <= i < |lines| && lines[i].user == u {
      assert u in users.Keys;
      var i :| 0 <= i < |ids| && ids[i] == u;
      assert lines[i].user == u;
    }
    forall i | 0 <= i < |lines|
      ensures lines[i].user in users && lines[i].best == Expected(users, lines[i].user, order, threshold, pcc)
    {
      assert ids[i] in ids;
      LinesForBest(ids, bestOf, i);
    }
  }

  /** The loop of ComputeCorrelations over the users in the order ids: each
      user's best match, and the text written for it. */
  method WriteLines(users: map<int, Profile>, ids: seq<int>, order: seq<int>, threshold: int,
                    root: real -> real, fmt: real -> string, ghost pcc: (Profile, Profile) -> real)
    returns (lines: seq<Line>, text: string)
    requires RootPositive(root)
    requires forall a, b {:trigger Pcc(a, b, root)} :: pcc(a, b) == Pcc(a, b, root)
    requires forall i :: 0 <= i < |order| ==> order[i] in users
    requires forall i :: 0 <= i < |ids| ==> ids[i] in users
    ensures lines == LinesFor(ids, ExpectedOf(users, order, threshold, pcc))
    ensures text == Report(lines, fmt)
  {
    ghost var bestOf := ExpectedOf(users, order, threshold, pcc);
    lines, text := [], "";
    for k := 0 to |ids|
      invariant lines == LinesFor(ids[..k], bestOf)
      invariant text == Report(lines, fmt)
    {
      var best := BestMatch(users, ids[k], order, threshold, root, pcc);
      var line := Line(ids[k], best);
      assert ids[..k + 1][..k] == ids[..k];
      ReportAppend(lines, line, fmt);
      lines := lines + [line];
      text := text + Render(line, fmt);
    }
    assert ids[..|ids|] == ids;
  }

  /** ComputeCorrelations without the file handle and the timing: one line
      per user, in ascending user id, each holding that user's best match;
      `text` is what is written to the file. The ghost parameter pcc names
      ComputePCC's score, which it must agree with (PccOf(root) does). */
  method ComputeCorrelations(users: map<int, Profile>, order: seq<int>, threshold: int,
                             root: real -> real, fmt: real -> string, ghost pcc: (Profile, Profile) -> real)
    returns (lines: seq<Line>, text: string)
    requires RootPositive(root) && IsScanOrder(order, users)
    requires forall a, b {:trigger Pcc(a, b, root)} :: pcc(a, b) == Pcc(a, b, root)
    ensures |lines| == |users|
    ensures forall i, j :: 0 <= i < j < |lines| ==> lines[i].user < lines[j].user
    ensures forall u :: u in users <==> exists i :: 0 <= i < |lines| && lines[i].user == u
    ensures forall i :: 0 <= i < |lines| ==> lines[i].user in users
    ensures forall i :: 0 <= i < |lines| ==>
      lines[i].best == Expected(users, lines[i].user, order, threshold, pcc)
    ensures text == Report(lines, fmt)
  {
    var ids := SortedIds(users.Keys);
    assert forall i :: 0 <= i < |ids| ==> ids[i] in users by {
      forall i | 0 <= i < |ids| ensures ids[i] in users {
        assert ids[i] in ids;
      }
    }
    assert |users.Keys| == |users|;
    lines, text := WriteLines(users, ids, order, threshold, root, fmt, pcc);
    LinesForSorted(users, ids, order, threshold, pcc);
  }
}
