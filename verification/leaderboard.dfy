/**
 * The leaderboard aggregator `groupByName` of the browser client
 * (actor/src/main/resources/www/js/app.js): raw attempt records are folded
 * into one summary per player name.
 *
 * The reference definitions below (FirstSeen, AttemptsOf, MaxScore, GroupOf,
 * Grouped) say what the leaderboard should be, independently of how the
 * loop builds it; GroupByName is the loop, proved to produce Grouped.
 *
 * Player names are assumed not to be integer-like ("0", "17", ...): for such
 * property names JavaScript's `for...in` enumerates in ascending numeric
 * order instead of insertion order, which this model does not capture.
 */
module Leaderboard {
  import opened Wrappers

  /** One attempt record as the server sends it: `{nickName, score, email}`. */
  datatype Attempt = Attempt(nickName: string, score: int, email: string)

  /** One leaderboard row: `{nickName, email, bestScore, results}`. */
  datatype PlayerSummary = PlayerSummary(nickName: string, email: string, bestScore: int, results: seq<Attempt>)

  /** `Math.max(a, b)` on integers. */
  function Max(a: int, b: int): (m: int)
    ensures a <= m && b <= m
    ensures m == a || m == b
  {
    if b > a then b else a
  }

  /** A non-empty sequence is its front followed by its last element. */
  lemma SnocSplit<T>(s: seq<T>)
    requires s != []
    ensures s == s[..|s| - 1] + [s[|s| - 1]]
  {
  }

  /** Appending a non-empty sequence is appending its front, then its last element. */
  lemma AppendSnoc<T>(a: seq<T>, s: seq<T>)
    requires s != []
    ensures a + s == (a + s[..|s| - 1]) + [s[|s| - 1]]
  {
    SnocSplit(s);
  }

  /** The slice up to the length is the whole sequence. */
  lemma FullSlice<T>(s: seq<T>)
    ensures s[..|s|] == s
  {
  }

  /** No element occurs twice. */
  predicate Distinct<T(==)>(s: seq<T>) {
    forall i, j :: 0 <= i < j < |s| ==> s[i] != s[j]
  }

  /** Concatenation is associative. */
  lemma AppendAssoc<T>(a: seq<T>, b: seq<T>, c: seq<T>)
    ensures (a + b) + c == a + (b + c)
  {
  }

  // ---------------------------------------------------------------------------
  // Reference definitions
  // ---------------------------------------------------------------------------

  /** Some record of `rs` carries the name `n`. */
  predicate Occurs(rs: seq<Attempt>, n: string) {
    exists k :: 0 <= k < |rs| && rs[k].nickName == n
  }

  /** A name occurs after appending a record exactly when it occurred before or is that record's name. */
  lemma OccursSnoc(p: seq<Attempt>, x: Attempt)
    ensures forall n :: Occurs(p + [x], n) <==> Occurs(p, n) || x.nickName == n
  {
    var q := p + [x];
    forall n | Occurs(q, n) ensures Occurs(p, n) || x.nickName == n {
      var k :| 0 <= k < |q| && q[k].nickName == n;
      if k < |p| { assert p[k] == q[k]; }
    }
    forall n | Occurs(p, n) ensures Occurs(q, n) {
      var k :| 0 <= k < |p| && p[k].nickName == n;
      assert q[k] == p[k];
    }
    assert q[|p|] == x;
  }

  /** The distinct names of `rs`, each listed once, in order of first occurrence. */
  function FirstSeen(rs: seq<Attempt>): (names: seq<string>)
    ensures forall n :: n in names <==> Occurs(rs, n)
    ensures Distinct(names)
    decreases |rs|
  {
    if rs == [] then []
    else
      var p, x := rs[..|rs| - 1], rs[|rs| - 1];
      assert rs == p + [x];
      OccursSnoc(p, x);
      var prev := FirstSeen(p);
      if x.nickName in prev then prev else prev + [x.nickName]
  }

  /** The records of `rs` named `n`, in input order. */
  function AttemptsOf(rs: seq<Attempt>, n: string): (s: seq<Attempt>)
    ensures forall i :: 0 <= i < |s| ==> s[i].nickName == n
    ensures s != [] <==> Occurs(rs, n)
    ensures |s| <= |rs|
    decreases |rs|
  {
    if rs == [] then []
    else
      var p, x := rs[..|rs| - 1], rs[|rs| - 1];
      assert rs == p + [x];
      OccursSnoc(p, x);
      AttemptsOf(p, n) + (if x.nickName == n then [x] else [])
  }

  /** A player's records are the input records carrying that name, and no others. */
  lemma {:induction false} AttemptsOfMembers(rs: seq<Attempt>, n: string)
    ensures forall a :: a in AttemptsOf(rs, n) <==> a in rs && a.nickName == n
    decreases |rs|
  {
    if rs != [] {
      var p, x := rs[..|rs| - 1], rs[|rs| - 1];
      assert rs == p + [x];
      AttemptsOfMembers(p, n);
    }
  }

  /** The largest score of a non-empty list of records. */
  function MaxScore(s: seq<Attempt>): (m: int)
    requires s != []
    ensures forall i :: 0 <= i < |s| ==> s[i].score <= m
    ensures exists i :: 0 <= i < |s| && s[i].score == m
    decreases |s|
  {
    if |s| == 1 then s[0].score
    else
      var p := s[..|s| - 1];
      var m' := MaxScore(p);
      assert forall i :: 0 <= i < |p| ==> s[i] == p[i];
      Max(m', s[|s| - 1].score)
  }

  /** The summary the leaderboard should hold for the player `n`. */
  function GroupOf(rs: seq<Attempt>, n: string): PlayerSummary
    requires Occurs(rs, n)
  {
    var s := AttemptsOf(rs, n);
    PlayerSummary(n, s[0].email, MaxScore(s), s)
  }

  /** The leaderboard `rs` should produce: one summary per distinct name, in first-seen order. */
  function Grouped(rs: seq<Attempt>): seq<PlayerSummary> {
    var names := FirstSeen(rs);
    seq(|names|, i requires 0 <= i < |names| => GroupOf(rs, names[i]))
  }

  /** The names of a leaderboard's rows, in row order. */
  function Names(board: seq<PlayerSummary>): (names: seq<string>)
    ensures |names| == |board|
    ensures forall i :: 0 <= i < |board| ==> names[i] == board[i].nickName
    decreases |board|
  {
    if board == [] then [] else Names(board[..|board| - 1]) + [board[|board| - 1].nickName]
  }

  /** All rows' `results`, concatenated in row order. */
  function Flatten(board: seq<PlayerSummary>): seq<Attempt>
    decreases |board|
  {
    if board == [] then [] else Flatten(board[..|board| - 1]) + board[|board| - 1].results
  }

  /** What every row built from records satisfies. */
  predicate WellFormedSummary(g: PlayerSummary) {
    && g.results != []
    && (forall a :: a in g.results ==> a.nickName == g.nickName)
    && g.email == g.results[0].email
    && g.bestScore == MaxScore(g.results)
  }

  /** Rows are well formed and no two rows share a name. */
  predicate WellFormedBoard(board: seq<PlayerSummary>) {
    && (forall i, j :: 0 <= i < j < |board| ==> board[i].nickName != board[j].nickName)
    && (forall i :: 0 <= i < |board| ==> WellFormedSummary(board[i]))
  }

  // ---------------------------------------------------------------------------
  // The loop of `groupByName`
  // ---------------------------------------------------------------------------

  /** The existing-player branch: running maximum and one more result. */
  function Merge(g: PlayerSummary, x: Attempt): PlayerSummary {
    g.(bestScore := Max(g.bestScore, x.score), results := g.results + [x])
  }

  /** The new-player branch: a summary seeded with this one record. */
  function Seed(x: Attempt): PlayerSummary {
    PlayerSummary(x.nickName, x.email, x.score, [x])
  }

  /** Appending a record extends only its own name's records. */
  lemma AttemptsOfSnoc(p: seq<Attempt>, x: Attempt, m: string)
    ensures AttemptsOf(p + [x], m) == AttemptsOf(p, m) + (if x.nickName == m then [x] else [])
  {
    assert (p + [x])[..|p|] == p;
  }

  /** Appending a record adds its name to the key order when it is new. */
  lemma FirstSeenSnoc(p: seq<Attempt>, x: Attempt)
    ensures FirstSeen(p + [x]) == if x.nickName in FirstSeen(p) then FirstSeen(p) else FirstSeen(p) + [x.nickName]
  {
    assert (p + [x])[..|p|] == p;
  }

  /** Reading one more record changes its own player's summary as the loop body does. */
  lemma GroupOfSnoc(p: seq<Attempt>, x: Attempt)
    ensures Occurs(p + [x], x.nickName)
    ensures GroupOf(p + [x], x.nickName) == if Occurs(p, x.nickName) then Merge(GroupOf(p, x.nickName), x) else Seed(x)
  {
    OccursSnoc(p, x);
    var s := AttemptsOf(p, x.nickName);
    AttemptsOfSnoc(p, x, x.nickName);
    if s != [] {
      assert (s + [x])[..|s|] == s;
    }
  }

  /** Reading a record of another player leaves this player's summary as it was. */
  lemma GroupOfOther(p: seq<Attempt>, x: Attempt, m: string)
    requires m != x.nickName && Occurs(p, m)
    ensures Occurs(p + [x], m)
    ensures GroupOf(p + [x], m) == GroupOf(p, m)
  {
    OccursSnoc(p, x);
    AttemptsOfSnoc(p, x, m);
    assert AttemptsOf(p, m) + [] == AttemptsOf(p, m);
  }

  /** The dictionary `grouped` after the first loop has read `rs`, one loop body per record. */
  function Index(rs: seq<Attempt>): map<string, PlayerSummary>
    decreases |rs|
  {
    if rs == [] then map[]
    else
      var grouped, x := Index(rs[..|rs| - 1]), rs[|rs| - 1];
      if x.nickName in grouped then grouped[x.nickName := Merge(grouped[x.nickName], x)]
      else grouped[x.nickName := Seed(x)]
  }

  /** The loop's dictionary holds an entry exactly for the names read, each being that player's reference summary. */
  lemma {:induction false} IndexIsGroupOf(rs: seq<Attempt>, m: string)
    ensures m in Index(rs) <==> Occurs(rs, m)
    ensures Occurs(rs, m) ==> Index(rs)[m] == GroupOf(rs, m)
    decreases |rs|
  {
    if rs != [] {
      var p, x := rs[..|rs| - 1], rs[|rs| - 1];
      assert rs == p + [x];
      IndexIsGroupOf(p, m);
      IndexIsGroupOf(p, x.nickName);
      OccursSnoc(p, x);
      if m == x.nickName {
        GroupOfSnoc(p, x);
      } else if Occurs(p, m) {
        GroupOfOther(p, x, m);
      }
    }
  }

  /** The effect of one iteration of the first loop on `keys` and `grouped`. */
  lemma ReadOneMore(rs: seq<Attempt>, i: nat)
    requires i < |rs|
    ensures FirstSeen(rs[..i + 1]) == if rs[i].nickName in Index(rs[..i]) then FirstSeen(rs[..i]) else FirstSeen(rs[..i]) + [rs[i].nickName]
    ensures Index(rs[..i + 1]) == var grouped := Index(rs[..i]);
      if rs[i].nickName in grouped then grouped[rs[i].nickName := Merge(grouped[rs[i].nickName], rs[i])]
      else grouped[rs[i].nickName := Seed(rs[i])]
  {
    assert rs[..i + 1] == rs[..i] + [rs[i]];
    assert rs[..i + 1][..i] == rs[..i];
    FirstSeenSnoc(rs[..i], rs[i]);
    IndexIsGroupOf(rs[..i], rs[i].nickName);
  }

  /** Once every record is read, the groups taken in key order are the reference leaderboard. */
  lemma EmitOrder(rs: seq<Attempt>, grouped: map<string, PlayerSummary>, keys: seq<string>)
    requires keys == FirstSeen(rs[..|rs|]) && grouped == Index(rs[..|rs|])
    ensures |keys| == |Grouped(rs)|
    ensures forall j :: 0 <= j < |keys| ==> keys[j] in grouped && grouped[keys[j]] == Grouped(rs)[j]
  {
    FullSlice(rs);
    forall j | 0 <= j < |keys| ensures keys[j] in grouped && grouped[keys[j]] == Grouped(rs)[j] {
      IndexIsGroupOf(rs, keys[j]);
    }
  }

  /**
   * `groupByName(results)`: the first loop fills `grouped` (keys in insertion
   * order in `keys`), the second loop pushes each group onto `ret`.
   * A name is looked up among the dictionary's own entries only; see
   * GroupByNameAsWritten for what the source's plain-object lookup does.
   */
  method GroupByName(results: seq<Attempt>) returns (ret: seq<PlayerSummary>)
    ensures ret == Grouped(results)
  {
    var grouped: map<string, PlayerSummary> := map[];
    var keys: seq<string> := [];
    for i := 0 to |results|
      invariant keys == FirstSeen(results[..i])
      invariant grouped == Index(results[..i])
    {
      ReadOneMore(results, i);
      var nickName := results[i].nickName;
      var score := results[i].score;
      var email := results[i].email;
      if nickName in grouped {
        var g := grouped[nickName];
        grouped := grouped[nickName := g.(bestScore := Max(g.bestScore, score), results := g.results + [results[i]])];
      } else {
        grouped := grouped[nickName := PlayerSummary(nickName, email, score, [results[i]])];
        keys := keys + [nickName];
      }
    }
    EmitOrder(results, grouped, keys);
    ret := [];
    for k := 0 to |keys|
      invariant ret == Grouped(results)[..k]
    {
      ret := ret + [grouped[keys[k]]];
    }
  }

  // ---------------------------------------------------------------------------
  // What the leaderboard promises
  // ---------------------------------------------------------------------------

  /** A name listed later in FirstSeen never occurs before every earlier-listed name has occurred. */
  lemma {:induction false} FirstSeenOrder(rs: seq<Attempt>, i: nat, j: nat, k: nat)
    requires i < j < |FirstSeen(rs)| && k < |rs| && rs[k].nickName == FirstSeen(rs)[j]
    ensures Occurs(rs[..k], FirstSeen(rs)[i])
    decreases |rs|
  {
    var p, x := rs[..|rs| - 1], rs[|rs| - 1];
    assert rs == p + [x];
    FirstSeenSnoc(p, x);
    var names, prev := FirstSeen(rs), FirstSeen(p);
    assert names[i] == prev[i];
    if k < |p| {
      assert rs[k] == p[k];
      assert rs[..k] == p[..k];
      assert Occurs(p, names[j]);
      assert j < |prev|;
      FirstSeenOrder(p, i, j, k);
    } else {
      assert rs[..k] == p;
    }
  }

  /** One group per distinct name of the input, none twice, ordered by first occurrence. */
  lemma GroupedByFirstOccurrence(rs: seq<Attempt>)
    ensures var g := Grouped(rs);
      && (forall n :: Occurs(rs, n) <==> exists i :: 0 <= i < |g| && g[i].nickName == n)
      && (forall i, j :: 0 <= i < j < |g| ==> g[i].nickName != g[j].nickName)
      && (forall i, j, k :: 0 <= i < j < |g| && 0 <= k < |rs| && rs[k].nickName == g[j].nickName ==> Occurs(rs[..k], g[i].nickName))
  {
    var g, names := Grouped(rs), FirstSeen(rs);
    forall i, j, k | 0 <= i < j < |g| && 0 <= k < |rs| && rs[k].nickName == g[j].nickName
      ensures Occurs(rs[..k], g[i].nickName)
    {
      assert g[j].nickName == names[j] && g[i].nickName == names[i];
      FirstSeenOrder(rs, i, j, k);
    }
    forall n | Occurs(rs, n) ensures exists i :: 0 <= i < |g| && g[i].nickName == n {
      var i :| 0 <= i < |names| && names[i] == n;
      assert g[i].nickName == n;
    }
  }

  /** The first record of a player's records is that player's first record in the input. */
  lemma {:induction false} FirstAttemptIsFirstOccurrence(rs: seq<Attempt>, n: string)
    requires Occurs(rs, n)
    ensures exists k :: 0 <= k < |rs| && rs[k].nickName == n && !Occurs(rs[..k], n) && AttemptsOf(rs, n)[0] == rs[k]
    decreases |rs|
  {
    var p, x := rs[..|rs| - 1], rs[|rs| - 1];
    assert rs == p + [x];
    OccursSnoc(p, x);
    AttemptsOfSnoc(p, x, n);
    if Occurs(p, n) {
      FirstAttemptIsFirstOccurrence(p, n);
      var k :| 0 <= k < |p| && p[k].nickName == n && !Occurs(p[..k], n) && AttemptsOf(p, n)[0] == p[k];
      assert rs[k] == p[k] && rs[..k] == p[..k];
    } else {
      assert rs[..|p|] == p;
    }
  }

  /**
   * Each group holds exactly the input records of its name, in input order;
   * its best score is the largest of their scores; its email is that of the
   * player's first record.
   */
  lemma GroupContents(rs: seq<Attempt>)
    ensures var g := Grouped(rs);
      forall i :: 0 <= i < |g| ==>
        && g[i].results == AttemptsOf(rs, g[i].nickName)
        && (forall a :: a in g[i].results <==> a in rs && a.nickName == g[i].nickName)
        && (forall j :: 0 <= j < |g[i].results| ==> g[i].results[j].score <= g[i].bestScore)
        && (exists j :: 0 <= j < |g[i].results| && g[i].results[j].score == g[i].bestScore)
        && (exists k :: 0 <= k < |rs| && rs[k].nickName == g[i].nickName && !Occurs(rs[..k], g[i].nickName) && g[i].email == rs[k].email)
  {
    var g := Grouped(rs);
    forall i | 0 <= i < |g| ensures forall a :: a in g[i].results <==> a in rs && a.nickName == g[i].nickName {
      AttemptsOfMembers(rs, g[i].nickName);
    }
    forall i | 0 <= i < |g|
      ensures exists k :: 0 <= k < |rs| && rs[k].nickName == g[i].nickName && !Occurs(rs[..k], g[i].nickName) && g[i].email == rs[k].email
    {
      FirstAttemptIsFirstOccurrence(rs, g[i].nickName);
    }
  }

  /** Every board the aggregator produces is well formed. */
  lemma GroupedIsWellFormed(rs: seq<Attempt>)
    ensures WellFormedBoard(Grouped(rs))
  {
  }

  /** The records of the players in `names`, player after player. */
  function Gather(rs: seq<Attempt>, names: seq<string>): seq<Attempt>
    decreases |names|
  {
    if names == [] then [] else Gather(rs, names[..|names| - 1]) + AttemptsOf(rs, names[|names| - 1])
  }

  /** A board whose rows hold the records of `names`, in order, flattens to those records gathered player after player. */
  lemma {:induction false} FlattenIsGather(rs: seq<Attempt>, board: seq<PlayerSummary>, names: seq<string>)
    requires |board| == |names|
    requires forall i :: 0 <= i < |board| ==> board[i].results == AttemptsOf(rs, names[i])
    ensures Flatten(board) == Gather(rs, names)
    decreases |board|
  {
    if board != [] {
      FlattenIsGather(rs, board[..|board| - 1], names[..|names| - 1]);
    }
  }

  /** A list without repetitions: its front has none, and its last element is not in the front. */
  lemma DistinctSnoc<T>(s: seq<T>)
    requires s != [] && Distinct(s)
    ensures Distinct(s[..|s| - 1])
    ensures s[|s| - 1] !in s[..|s| - 1]
  {
  }

  /** Multiset union is associative and commutative. */
  lemma UnionShuffle<T>(a: multiset<T>, b: multiset<T>, c: multiset<T>)
    ensures a + (b + c) == (a + b) + c
    ensures (a + c) + b == (a + b) + c
  {
  }

  /** Gathering one more player appends that player's records. */
  lemma GatherAppend(rs: seq<Attempt>, front: seq<string>, last: string)
    ensures Gather(rs, front + [last]) == Gather(rs, front) + AttemptsOf(rs, last)
  {
    assert (front + [last])[..|front|] == front;
  }

  /** One step of GatherSnoc: the players `front`, then one more player `last`. */
  lemma GatherSnocStep(p: seq<Attempt>, x: Attempt, front: seq<string>, last: string)
    requires last !in front
    requires multiset(Gather(p + [x], front)) == multiset(Gather(p, front)) + if x.nickName in front then multiset{x} else multiset{}
    ensures multiset(Gather(p + [x], front + [last])) == multiset(Gather(p, front + [last])) + if x.nickName in front + [last] then multiset{x} else multiset{}
  {
    var q := p + [x];
    GatherAppend(q, front, last);
    GatherAppend(p, front, last);
    AttemptsOfSnoc(p, x, last);
    var names := front + [last];
    var gp, ap := multiset(Gather(p, front)), multiset(AttemptsOf(p, last));
    assert multiset(Gather(p, names)) == gp + ap;
    if x.nickName == last {
      assert x.nickName in names && x.nickName !in front;
      assert multiset(Gather(q, front)) == gp;
      assert multiset(AttemptsOf(q, last)) == ap + multiset{x};
      assert multiset(Gather(q, names)) == gp + (ap + multiset{x});
      UnionShuffle(gp, ap, multiset{x});
    } else {
      var e := if x.nickName in front then multiset{x} else multiset{};
      assert (x.nickName in names) == (x.nickName in front);
      assert multiset(Gather(q, front)) == gp + e;
      assert multiset(AttemptsOf(q, last)) == ap;
      assert multiset(Gather(q, names)) == (gp + e) + ap;
      UnionShuffle(gp, ap, e);
    }
  }

  /** Appending a record adds it once to the records gathered for a repetition-free name list holding its name. */
  lemma {:induction false} GatherSnoc(p: seq<Attempt>, x: Attempt, names: seq<string>)
    requires Distinct(names)
    ensures multiset(Gather(p + [x], names)) == multiset(Gather(p, names)) + if x.nickName in names then multiset{x} else multiset{}
    decreases |names|
  {
    if names != [] {
      var front, last := names[..|names| - 1], names[|names| - 1];
      DistinctSnoc(names);
      GatherSnoc(p, x, front);
      GatherSnocStep(p, x, front, last);
      SnocSplit(names);
    }
  }

  /** Appending a record of an already-seen player adds exactly that record to the gathered records. */
  lemma GatherSeenName(p: seq<Attempt>, x: Attempt)
    requires x.nickName in FirstSeen(p)
    ensures multiset(Gather(p + [x], FirstSeen(p + [x]))) == multiset(Gather(p, FirstSeen(p))) + multiset{x}
  {
    FirstSeenSnoc(p, x);
    GatherSnoc(p, x, FirstSeen(p));
  }

  /** Appending a record of a new player adds exactly that record to the gathered records. */
  lemma GatherNewName(p: seq<Attempt>, x: Attempt)
    requires x.nickName !in FirstSeen(p)
    ensures multiset(Gather(p + [x], FirstSeen(p + [x]))) == multiset(Gather(p, FirstSeen(p))) + multiset{x}
  {
    var q, n, prev := p + [x], x.nickName, FirstSeen(p);
    FirstSeenSnoc(p, x);
    assert FirstSeen(q) == prev + [n];
    assert (prev + [n])[..|prev|] == prev;
    assert Gather(q, prev + [n]) == Gather(q, prev) + AttemptsOf(q, n);
    GatherSnoc(p, x, prev);
    assert multiset(Gather(q, prev)) == multiset(Gather(p, prev));
    AttemptsOfSnoc(p, x, n);
    assert AttemptsOf(p, n) == [];
    assert AttemptsOf(q, n) == [x];
  }

  /** Gathering every player's records in first-seen order yields the input records, as a multiset. */
  lemma {:induction false} GatherAll(rs: seq<Attempt>)
    ensures multiset(Gather(rs, FirstSeen(rs))) == multiset(rs)
    decreases |rs|
  {
    if rs != [] {
      var p, x := rs[..|rs| - 1], rs[|rs| - 1];
      assert rs == p + [x];
      GatherAll(p);
      if x.nickName in FirstSeen(p) {
        GatherSeenName(p, x);
      } else {
        GatherNewName(p, x);
      }
    }
  }

  /** The groups partition the input: together they hold every record exactly as often as the input does. */
  lemma ResultsPartitionInput(rs: seq<Attempt>)
    ensures multiset(Flatten(Grouped(rs))) == multiset(rs)
    ensures |Flatten(Grouped(rs))| == |rs|
  {
    FlattenIsGather(rs, Grouped(rs), FirstSeen(rs));
    GatherAll(rs);
    assert |multiset(Flatten(Grouped(rs)))| == |multiset(rs)|;
  }

  /** A player's records in a concatenation are those in the first part followed by those in the second. */
  lemma {:induction false} AttemptsOfConcat(a: seq<Attempt>, s: seq<Attempt>, n: string)
    ensures AttemptsOf(a + s, n) == AttemptsOf(a, n) + AttemptsOf(s, n)
    decreases |s|
  {
    if s == [] {
      assert a + s == a;
      assert AttemptsOf(a, n) + [] == AttemptsOf(a, n);
    } else {
      var front, last := s[..|s| - 1], s[|s| - 1];
      SnocSplit(s);
      AppendSnoc(a, s);
      AttemptsOfConcat(a, front, n);
      AttemptsOfSnoc(a + front, last, n);
      AttemptsOfSnoc(front, last, n);
      AppendAssoc(AttemptsOf(a, n), AttemptsOf(front, n), if last.nickName == n then [last] else []);
    }
  }

  /** In records all named `m`, the player `m` has all of them and any other player none. */
  lemma {:induction false} AttemptsOfUniform(s: seq<Attempt>, m: string, n: string)
    requires forall a :: a in s ==> a.nickName == m
    ensures AttemptsOf(s, n) == if n == m then s else []
    decreases |s|
  {
    if s != [] {
      var front, last := s[..|s| - 1], s[|s| - 1];
      assert s == front + [last];
      AttemptsOfUniform(front, m, n);
      AttemptsOfSnoc(front, last, n);
    }
  }

  /** Appending records all named `m`, a name not yet seen, adds `m` once at the end of the key order. */
  lemma {:induction false} FirstSeenConcatUniform(a: seq<Attempt>, s: seq<Attempt>, m: string)
    requires s != [] && (forall r :: r in s ==> r.nickName == m) && !Occurs(a, m)
    ensures FirstSeen(a + s) == FirstSeen(a) + [m]
    decreases |s|
  {
    var front, last := s[..|s| - 1], s[|s| - 1];
    AppendSnoc(a, s);
    FirstSeenSnoc(a + front, last);
    if front == [] {
      assert a + front == a;
    } else {
      FirstSeenConcatUniform(a, front, m);
    }
  }

  /** Appending one group's records extends only that player's records. */
  lemma AttemptsOfAppendGroup(a: seq<Attempt>, g: PlayerSummary, n: string)
    requires forall r :: r in g.results ==> r.nickName == g.nickName
    ensures AttemptsOf(a + g.results, n) == AttemptsOf(a, n) + if n == g.nickName then g.results else []
  {
    AttemptsOfConcat(a, g.results, n);
    AttemptsOfUniform(g.results, g.nickName, n);
  }

  /** A well-formed board is a well-formed board followed by a well-formed row with a new name. */
  lemma WellFormedSnoc(board: seq<PlayerSummary>)
    requires WellFormedBoard(board) && board != []
    ensures WellFormedBoard(board[..|board| - 1])
    ensures WellFormedSummary(board[|board| - 1])
    ensures board[|board| - 1].nickName !in Names(board[..|board| - 1])
  {
    var front := board[..|board| - 1];
    assert forall i :: 0 <= i < |front| ==> front[i] == board[i];
  }

  /** Concatenating a well-formed board's results lists its names again, in row order. */
  lemma {:induction false} FlattenNames(board: seq<PlayerSummary>)
    requires WellFormedBoard(board)
    ensures FirstSeen(Flatten(board)) == Names(board)
    decreases |board|
  {
    if board != [] {
      var front, g := board[..|board| - 1], board[|board| - 1];
      WellFormedSnoc(board);
      FlattenNames(front);
      FirstSeenConcatUniform(Flatten(front), g.results, g.nickName);
    }
  }

  /** In a well-formed board's concatenated results, the last row's player has exactly that row's records. */
  lemma FlattenAttemptsLast(board: seq<PlayerSummary>)
    requires WellFormedBoard(board) && board != []
    ensures AttemptsOf(Flatten(board), board[|board| - 1].nickName) == board[|board| - 1].results
  {
    var front, g := board[..|board| - 1], board[|board| - 1];
    var a := Flatten(front);
    WellFormedSnoc(board);
    AttemptsOfAppendGroup(a, g, g.nickName);
    FlattenNames(front);
    assert AttemptsOf(a, g.nickName) == [];
    assert [] + g.results == g.results;
  }

  /** In a well-formed board's concatenated results, a row's player has exactly that row's records. */
  lemma {:induction false} FlattenAttempts(board: seq<PlayerSummary>, i: nat)
    requires WellFormedBoard(board) && i < |board|
    ensures AttemptsOf(Flatten(board), board[i].nickName) == board[i].results
    decreases |board|
  {
    if i == |board| - 1 {
      FlattenAttemptsLast(board);
    } else {
      var front, g := board[..|board| - 1], board[|board| - 1];
      var a, n := Flatten(front), board[i].nickName;
      assert board[i] == front[i];
      WellFormedSnoc(board);
      assert n != g.nickName;
      FlattenAttempts(front, i);
      AttemptsOfAppendGroup(a, g, n);
      assert AttemptsOf(a, n) + [] == AttemptsOf(a, n);
    }
  }

  /** Aggregating a well-formed board's records reproduces that board. */
  lemma WellFormedIsFixpoint(board: seq<PlayerSummary>)
    requires WellFormedBoard(board)
    ensures Grouped(Flatten(board)) == board
  {
    FlattenNames(board);
    var g := Grouped(Flatten(board));
    forall i | 0 <= i < |board| ensures g[i] == board[i] {
      assert WellFormedSummary(board[i]);
      FlattenAttempts(board, i);
    }
  }

  /** Re-aggregating the records of an aggregated board changes nothing. */
  lemma GroupingIsIdempotent(rs: seq<Attempt>)
    ensures Grouped(Flatten(Grouped(rs))) == Grouped(rs)
  {
    GroupedIsWellFormed(rs);
    WellFormedIsFixpoint(Grouped(rs));
  }

  // ---------------------------------------------------------------------------
  // The lookup as the source writes it
  // ---------------------------------------------------------------------------

  /** The properties every object literal `{}` inherits from `Object.prototype`. */
  const PrototypeMembers: set<string> := {
    "constructor", "hasOwnProperty", "isPrototypeOf", "propertyIsEnumerable",
    "toLocaleString", "toString", "valueOf", "__proto__",
    "__defineGetter__", "__defineSetter__", "__lookupGetter__", "__lookupSetter__"
  }

  /** No record is named after an inherited property. */
  predicate NoPrototypeName(rs: seq<Attempt>) {
    forall k :: 0 <= k < |rs| ==> rs[k].nickName !in PrototypeMembers
  }

  /** The object `grouped`: its own entries and their insertion order. */
  datatype Table = Table(grouped: map<string, PlayerSummary>, keys: seq<string>)
  type Dictionary = t: Table | forall n :: n in t.keys ==> n in t.grouped witness Table(map[], [])

  /**
   * The first loop with `grouped[nickName]` evaluated as JavaScript evaluates it
   * on `{}`: an own entry if there is one, otherwise the inherited member, which
   * is truthy. For an inherited member the existing-player branch runs, finds no
   * `results` array, and `push` throws a TypeError (None).
   */
  function FillAsWritten(rs: seq<Attempt>): Option<Dictionary>
    decreases |rs|
  {
    if rs == [] then Some(Table(map[], []))
    else
      match FillAsWritten(rs[..|rs| - 1])
      case None => None
      case Some(t) =>
        var x := rs[|rs| - 1];
        if x.nickName in t.grouped then Some(Table(t.grouped[x.nickName := Merge(t.grouped[x.nickName], x)], t.keys))
        else if x.nickName in PrototypeMembers then None
        else Some(Table(t.grouped[x.nickName := Seed(x)], t.keys + [x.nickName]))
  }

  /** What a call of `groupByName` as written does: return a board, or throw. */
  datatype Outcome = Returned(board: seq<PlayerSummary>) | ThrewTypeError

  /** A name that occurs among records with no inherited names is not inherited. */
  lemma OccursNotInherited(rs: seq<Attempt>, n: string)
    requires NoPrototypeName(rs) && Occurs(rs, n)
    ensures n !in PrototypeMembers
  {
    var k :| 0 <= k < |rs| && rs[k].nickName == n;
  }

  /** Appending a record adds its name to those checked by NoPrototypeName. */
  lemma NoPrototypeNameSnoc(p: seq<Attempt>, x: Attempt)
    ensures NoPrototypeName(p + [x]) <==> NoPrototypeName(p) && x.nickName !in PrototypeMembers
  {
    var q := p + [x];
    assert q[|p|] == x;
    assert forall k :: 0 <= k < |p| ==> q[k] == p[k];
  }

  /** One more record read by the loop as written, from a state that agrees with Index and FirstSeen. */
  lemma FillAsWrittenStep(p: seq<Attempt>, x: Attempt)
    requires NoPrototypeName(p) && FillAsWritten(p) == Some(Table(Index(p), FirstSeen(p)))
    ensures FillAsWritten(p + [x]).Some? <==> x.nickName !in PrototypeMembers
    ensures FillAsWritten(p + [x]).Some? ==> FillAsWritten(p + [x]).value == Table(Index(p + [x]), FirstSeen(p + [x]))
  {
    var q := p + [x];
    assert q[..|q| - 1] == p && q[|q| - 1] == x;
    FirstSeenSnoc(p, x);
    IndexIsGroupOf(p, x.nickName);
    if x.nickName in Index(p) {
      OccursNotInherited(p, x.nickName);
    }
  }

  /** As written, the first loop throws exactly when some name is inherited, and otherwise builds what GroupByName builds. */
  lemma {:induction false} FillAsWrittenAgrees(rs: seq<Attempt>)
    ensures FillAsWritten(rs).Some? <==> NoPrototypeName(rs)
    ensures FillAsWritten(rs).Some? ==> FillAsWritten(rs).value == Table(Index(rs), FirstSeen(rs))
    decreases |rs|
  {
    if rs != [] {
      var p, x := rs[..|rs| - 1], rs[|rs| - 1];
      SnocSplit(rs);
      FillAsWrittenAgrees(p);
      NoPrototypeNameSnoc(p, x);
      if FillAsWritten(p).Some? {
        FillAsWrittenStep(p, x);
      } else {
        assert FillAsWritten(rs) == None;
      }
    }
  }

  /**
   * `groupByName` as written: the first loop as FillAsWritten, then one row per
   * own key in insertion order. It throws exactly when some record is named
   * after an inherited property, and otherwise returns the reference board.
   */
  function GroupByNameAsWritten(rs: seq<Attempt>): (r: Outcome)
    ensures r == if NoPrototypeName(rs) then Returned(Grouped(rs)) else ThrewTypeError
  {
    FillAsWrittenAgrees(rs);
    match FillAsWritten(rs)
    case None => ThrewTypeError
    case Some(t) =>
      var board := seq(|t.keys|, i requires 0 <= i < |t.keys| => t.grouped[t.keys[i]]);
      EmittedIsGrouped(rs, t, board);
      Returned(board)
  }

  /** The rows taken in key order from the dictionary and key order of Index and FirstSeen are the reference board. */
  lemma EmittedIsGrouped(rs: seq<Attempt>, t: Dictionary, board: seq<PlayerSummary>)
    requires t == Table(Index(rs), FirstSeen(rs))
    requires |board| == |t.keys| && forall i :: 0 <= i < |t.keys| ==> board[i] == t.grouped[t.keys[i]]
    ensures board == Grouped(rs)
  {
    FullSlice(rs);
    EmitOrder(rs, t.grouped, t.keys);
  }

  /** A single record from a player named "constructor": the source throws. */
  lemma ConstructorNameThrows()
    ensures GroupByNameAsWritten([Attempt("constructor", 5, "a@b")]) == ThrewTypeError
  {
    var rs := [Attempt("constructor", 5, "a@b")];
    assert rs[0].nickName in PrototypeMembers;
    assert !NoPrototypeName(rs);
  }

  /** The same single record: the corrected aggregator lists the player with that one result. */
  lemma ConstructorNameGrouped()
    ensures var rs := [Attempt("constructor", 5, "a@b")];
      Grouped(rs) == [PlayerSummary("constructor", "a@b", 5, rs)]
  {
    var rs := [Attempt("constructor", 5, "a@b")];
    assert rs[..0] == [];
    assert FirstSeen(rs) == ["constructor"];
    assert AttemptsOf(rs, "constructor") == rs;
    assert MaxScore(rs) == 5;
  }
}
