/** A worked example: users 1 and 2 rate items 10 and 20 alike (5 and 3),
    user 3 rates both 1. With a threshold of two common items, user 1's best
    match is user 2, whatever order the inner loop visits the store in. */
module Scenario {
  import opened Sums
  import opened Ratings
  import opened Pearson
  import opened Matches
  import opened Output
  import opened Correlations

  /** The profile of users 1 and 2. */
  function Alike(): Profile
  {
    Profile(4.0, map[10 := 5, 20 := 3])
  }

  /** The profile of user 3. */
  function Flat(): Profile
  {
    Profile(1.0, map[10 := 1, 20 := 1])
  }

  /** A store of three users, the first two with the same profile. */
  function StoreOf(a: Profile, c: Profile): map<int, Profile>
  {
    map[1 := a, 2 := a, 3 := c]
  }

  function Store(): map<int, Profile>
  {
    StoreOf(Alike(), Flat())
  }

  /** A sum over the two items 10 and 20. */
  lemma SumOverPair(f: int -> real)
    ensures SetSum({10, 20}, f) == f(10) + f(20)
  {
    SetSumRemove({10, 20}, f, 10);
    assert {10, 20} - {10} == {20};
    SetSumRemove({20}, f, 20);
    assert {20} - {20} == {};
  }

  /** A user who rated exactly items 10 and 20 has two ratings, with
      their average as mean. */
  lemma PairMean(m: map<int, int>, x: int, y: int)
    requires m == map[10 := x, 20 := y]
    ensures |m| == 2 && Mean(m) == (x + y) as real / 2.0
  {
    assert m.Keys == {10, 20};
    assert |m| == |m.Keys|;
    SumOverPair(RatingOf(m));
  }

  /** A store of two valid profiles is valid. */
  lemma StoreOfValid(a: Profile, c: Profile)
    requires |a.ratings| > 0 && a.mean == Mean(a.ratings)
    requires |c.ratings| > 0 && c.mean == Mean(c.ratings)
    ensures ValidStore(StoreOf(a, c))
  {
  }

  /** The stored means are the means of the ratings, as LoadData leaves them. */
  lemma StoreIsValid()
    ensures ValidStore(Store())
  {
    PairMean(Alike().ratings, 5, 3);
    PairMean(Flat().ratings, 1, 1);
    StoreOfValid(Alike(), Flat());
  }

  /** The input file of the example: each user's ratings, in file order. */
  function Records(): seq<Record>
  {
    [Record(1, 10, 5), Record(1, 20, 3), Record(2, 10, 5), Record(2, 20, 3), Record(3, 10, 1), Record(3, 20, 1)]
  }

  /** Applying one more record is one step of the fold. */
  lemma CollectSnoc(records: seq<Record>, r: Record)
    ensures Collect(records + [r]) == AddRecord(Collect(records), r)
  {
    assert (records + [r])[..|records|] == records;
  }

  /** Loading the example's records gives the example's ratings. */
  lemma CollectRecords()
    ensures var c := Collect(Records());
      && c.Keys == {1, 2, 3}
      && c[1] == map[10 := 5, 20 := 3] && c[2] == map[10 := 5, 20 := 3] && c[3] == map[10 := 1, 20 := 1]
  {
    var r := Records();
    assert r == [r[0]] + [r[1]] + [r[2]] + [r[3]] + [r[4]] + [r[5]];
    CollectSnoc([], r[0]);
    assert Collect([r[0]]) == map[1 := map[10 := 5]];
    CollectSnoc([r[0]], r[1]);
    assert Collect([r[0]] + [r[1]]) == map[1 := map[10 := 5, 20 := 3]];
    CollectSnoc([r[0]] + [r[1]], r[2]);
    CollectSnoc([r[0]] + [r[1]] + [r[2]], r[3]);
    assert Collect([r[0]] + [r[1]] + [r[2]] + [r[3]]) == map[1 := Alike().ratings, 2 := Alike().ratings];
    CollectSnoc([r[0]] + [r[1]] + [r[2]] + [r[3]], r[4]);
    CollectSnoc([r[0]] + [r[1]] + [r[2]] + [r[3]] + [r[4]], r[5]);
  }

  /** A valid profile holding exactly the ratings of items 10 and 20 is
      determined by them. */
  lemma PairProfile(p: Profile, x: int, y: int)
    requires p.ratings == map[10 := x, 20 := y] && p.mean == Mean(p.ratings)
    ensures p == Profile((x + y) as real / 2.0, map[10 := x, 20 := y])
  {
    PairMean(p.ratings, x, y);
  }

  /** A store with users 1, 2 and 3, the first two holding a and the third c,
      is StoreOf(a, c). */
  lemma IsStoreOf(users: map<int, Profile>, a: Profile, c: Profile)
    requires users.Keys == {1, 2, 3}
    requires users[1] == a && users[2] == a && users[3] == c
    ensures users == StoreOf(a, c)
  {
  }

  /** Whatever LoadData returns for the example's records is the example
      store: the ratings are fixed by the records and the means by them. */
  lemma LoadedStore(users: map<int, Profile>)
    requires users.Keys == Collect(Records()).Keys
    requires forall u :: u in users ==> users[u].ratings == Collect(Records())[u]
    requires ValidStore(users)
    ensures users == Store()
  {
    CollectRecords();
    assert 1 in users && 2 in users && 3 in users;
    PairProfile(users[1], 5, 3);
    PairProfile(users[2], 5, 3);
    PairProfile(users[3], 1, 1);
    IsStoreOf(users, Alike(), Flat());
  }

  /** Over two users who both rated exactly items 10 and 20, the numerator
      has one term per item. */
  lemma PairNum(a: Profile, b: Profile)
    requires a.ratings.Keys == {10, 20} && b.ratings.Keys == {10, 20}
    ensures Common(a, b) == {10, 20}
    ensures |Common(a, b)| == 2
    ensures Num(a, b) == Product(Dev(a, 10), Dev(b, 10)) + Product(Dev(a, 20), Dev(b, 20))
  {
    assert Common(a, b) == {10, 20};
    SumOverPair(ProductTerm(a, b));
  }

  /** User 1 correlates positively with user 2 and not at all with user 3;
      both share the two items with user 1. */
  lemma ScenarioScores(root: real -> real)
    requires RootPositive(root)
    ensures Pcc(Alike(), Alike(), root) > 0.0
    ensures Pcc(Alike(), Flat(), root) == 0.0
    ensures |Common(Alike(), Alike())| == 2 && |Common(Alike(), Flat())| == 2
  {
    var a, c := Alike(), Flat();
    assert a.ratings.Keys == {10, 20} && c.ratings.Keys == {10, 20};
    PairNum(a, a);
    PairNum(a, c);
    assert Dev(a, 10) == 1.0 && Dev(a, 20) == -1.0;
    assert Dev(c, 10) == 0.0 && Dev(c, 20) == 0.0;
    PccSign(a, a, root);
    PccSign(a, c, root);
  }

  /** Three users where the first's two peers both share enough items and the
      second scores strictly higher than the third: the second is the match. */
  lemma ThreeUsers(a: Profile, c: Profile, order: seq<int>, pcc: (Profile, Profile) -> real)
    requires IsScanOrder(order, StoreOf(a, c))
    requires |Common(a, a)| == 2 && |Common(a, c)| == 2
    requires pcc(a, c) < pcc(a, a)
    ensures Expected(StoreOf(a, c), 1, order, 2, pcc) == Some(Match(2, pcc(a, a), 2))
  {
    var s := StoreOf(a, c);
    assert s[1] == a && s[2] == a && s[3] == c;
    ExpectedUniqueMaximum(s, 1, order, 2, pcc, 2);
  }

  /** The scenario's result for user 1: user 2, with both items in common. */
  lemma UserOneMatchesUserTwo(order: seq<int>, root: real -> real)
    requires RootPositive(root) && IsScanOrder(order, Store())
    ensures Expected(Store(), 1, order, 2, PccOf(root)) ==
      Some(Match(2, Pcc(Alike(), Alike(), root), 2))
  {
    ScenarioScores(root);
    ThreeUsers(Alike(), Flat(), order, PccOf(root));
  }
}
