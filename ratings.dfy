/** The rating store built by LoadData in correlate.py: a map from user id to
    that user's mean rating and item-to-rating map. Reading and splitting the
    input file is outside the model; the input is the sequence of parsed
    (user, item, rating) records, in file order. */
module Ratings {
  import opened Sums

  /** One parsed input line: a user's rating of an item. */
  datatype Record = Record(user: int, item: int, rating: int)

  /** What the store keeps per user: the mean rating and the ratings by item. */
  datatype Profile = Profile(mean: real, ratings: map<int, int>)

  /** The mean a new user gets until the second pass computes the real one. */
  const Unset: real := -1.0

  /** The ratings per user after the records have been applied in order. */
  function Collect(records: seq<Record>): map<int, map<int, int>>
    decreases |records|
  {
    if records == [] then map[]
    else AddRecord(Collect(records[..|records| - 1]), records[|records| - 1])
  }

  /** One step of the first loop: an existing user gets the item set (a
      repeated item is overwritten), a new user starts with this one rating. */
  function AddRecord(users: map<int, map<int, int>>, r: Record): map<int, map<int, int>>
  {
    if r.user in users then users[r.user := users[r.user][r.item := r.rating]]
    else users[r.user := map[r.item := r.rating]]
  }

  /** A rating map as a term function for SetSum. */
  function RatingOf(ratings: map<int, int>): int -> real
  {
    k => if k in ratings then ratings[k] as real else 0.0
  }

  /** The sum of all ratings in the map. */
  ghost function Total(ratings: map<int, int>): real
  {
    SetSum(ratings.Keys, RatingOf(ratings))
  }

  /** The arithmetic mean of the ratings: their sum divided by their count. */
  ghost function Mean(ratings: map<int, int>): real
    requires |ratings| > 0
  {
    Total(ratings) / (|ratings| as real)
  }

  /** The store invariant: no user without ratings, and each mean is the
      mean of that user's own ratings. */
  ghost predicate ValidStore(users: map<int, Profile>)
  {
    forall u :: u in users ==>
      |users[u].ratings| > 0 && users[u].mean == Mean(users[u].ratings)
  }

  /** One record's effect: its rating is stored for its user and item, every
      other item of that user and every other user is left as it was. */
  lemma LoadStep(records: seq<Record>, r: Record)
    ensures var before, after := Collect(records), Collect(records + [r]);
      && after.Keys == before.Keys + {r.user}
      && after[r.user][r.item] == r.rating
      && (r.user in before ==> after[r.user].Keys == before[r.user].Keys + {r.item})
      && (r.user !in before ==> after[r.user].Keys == {r.item})
      && (forall i :: i in after[r.user] && i != r.item ==> after[r.user][i] == before[r.user][i])
      && (forall u :: u in before && u != r.user ==> after[u] == before[u])
  {
    assert (records + [r])[..|records|] == records;
  }

  /** Every user in the store has at least one rating, so the division that
      computes the mean never divides by zero. */
  lemma {:induction false} CollectNonEmpty(records: seq<Record>)
    ensures forall u :: u in Collect(records) ==> |Collect(records)[u]| > 0
    decreases |records|
  {
    if records != [] {
      var prefix := records[..|records| - 1];
      CollectNonEmpty(prefix);
      var r := records[|records| - 1];
      var before := Collect(prefix);
      if r.user in before {
        assert r.item in Collect(records)[r.user];
      }
    }
  }

  /** A user and item are in the store exactly when some record rates that
      item for that user. */
  lemma {:induction false} CollectKeys(records: seq<Record>, u: int, i: int)
    ensures u in Collect(records) <==> exists j :: 0 <= j < |records| && records[j].user == u
    ensures (u in Collect(records) && i in Collect(records)[u]) <==>
      exists j :: 0 <= j < |records| && records[j].user == u && records[j].item == i
    decreases |records|
  {
    if records != [] {
      var n := |records| - 1;
      var prefix := records[..n];
      CollectKeys(prefix, u, i);
      forall j | 0 <= j < n ensures prefix[j] == records[j] { }
      if u in Collect(records) && u !in Collect(prefix) {
        assert records[n].user == u;
      }
      if u in Collect(records) && i in Collect(records)[u] && !(u in Collect(prefix) && i in Collect(prefix)[u]) {
        assert records[n].user == u && records[n].item == i;
      }
    }
  }

  /** Last write wins: the stored rating of an item is the rating of the last
      record for that user and item. */
  lemma {:induction false} CollectLastWriteWins(records: seq<Record>, j: int)
    requires 0 <= j < |records|
    requires forall k :: j < k < |records| ==>
      !(records[k].user == records[j].user && records[k].item == records[j].item)
    ensures records[j].user in Collect(records)
    ensures records[j].item in Collect(records)[records[j].user]
    ensures Collect(records)[records[j].user][records[j].item] == records[j].rating
    decreases |records|
  {
    var n := |records| - 1;
    var prefix := records[..n];
    if j < n {
      forall k | j < k < |prefix| ensures !(prefix[k].user == prefix[j].user && prefix[k].item == prefix[j].item) {
        assert prefix[k] == records[k];
      }
      CollectLastWriteWins(prefix, j);
    }
  }

  /** The second pass's inner loop: the sum of one user's ratings, visited in
      whatever order the dict yields its keys. */
  method SumRatings(ratings: map<int, int>) returns (total: real)
    ensures total == Total(ratings)
  {
    total := 0.0;
    var rest := ratings.Keys;
    ghost var visited: seq<int> := [];
    while rest != {}
      invariant rest <= ratings.Keys && Distinct(visited)
      invariant forall x :: x in visited <==> x in ratings && x !in rest
      invariant total == SeqSum(visited, RatingOf(ratings))
      decreases |rest|
    {
      NonEmptyHasElement(rest);
      var item :| item in rest;
      assert (visited + [item])[..|visited|] == visited;
      total := total + ratings[item] as real;
      rest := rest - {item};
      visited := visited + [item];
    }
    SeqSumIsSetSum(visited, ratings.Keys, RatingOf(ratings));
  }

  /** The second pass of LoadData: every user's mean becomes the mean of the
      ratings, which are left as they are. */
  method FillMeans(users: map<int, Profile>) returns (result: map<int, Profile>)
    requires forall u :: u in users ==> |users[u].ratings| > 0
    ensures result.Keys == users.Keys
    ensures forall u :: u in result ==> result[u].ratings == users[u].ratings
    ensures ValidStore(result)
  {
    result := users;
    var pending := users.Keys;
    while pending != {}
      invariant pending <= result.Keys && result.Keys == users.Keys
      invariant forall u :: u in result ==> result[u].ratings == users[u].ratings
      invariant forall u :: u in result && u !in pending ==> result[u].mean == Mean(result[u].ratings)
      decreases |pending|
    {
      NonEmptyHasElement(pending);
      var u :| u in pending;
      var ratings := result[u].ratings;
      var total := SumRatings(ratings);
      result := result[u := Profile(total / (|ratings| as real), ratings)];
      pending := pending - {u};
    }
  }

  /** LoadData without the file handling: fold the records into the store,
      then replace each user's placeholder mean by the mean of their ratings. */
  method LoadData(records: seq<Record>) returns (users: map<int, Profile>)
    ensures users.Keys == Collect(records).Keys
    ensures forall u :: u in users ==> users[u].ratings == Collect(records)[u]
    ensures ValidStore(users)
  {
    users := map[];
    for n := 0 to |records|
      invariant users.Keys == Collect(records[..n]).Keys
      invariant forall u :: u in users ==> users[u] == Profile(Unset, Collect(records[..n])[u])
    {
      var r := records[n];
      assert records[..n + 1] == records[..n] + [r];
      LoadStep(records[..n], r);
      if r.user in users {
        users := users[r.user := Profile(users[r.user].mean, users[r.user].ratings[r.item := r.rating])];
      } else {
        users := users[r.user := Profile(Unset, map[r.item := r.rating])];
      }
    }
    assert records[..|records|] == records;
    CollectNonEmpty(records);
    users := FillMeans(users);
  }
}
