/**
 * The leaderboard table: every known user ordered by token balance, ranked from 1,
 * with the uid masked, cut to the first 50 rows and patched so that the signed-in
 * user always sees their own row.
 */
module Leaderboard {
  import opened Wrappers
  import opened Ledger

  /** One row of the table (`LeaderboardUser`). */
  datatype Entry = Entry(rank: nat, uid: string, tokens: real, isCurrentUser: bool)

  const BoardSize: nat := 50
  const AdminPrefix: string := "admin"
  const AdminName: string := "Pika Admin"
  const Stars: string := "*******"

  function Min(a: nat, b: nat): nat {
    if a <= b then a else b
  }

  // ---------------------------------------------------------------------------
  // Ordering by balance

  predicate SortedByBalance(s: seq<User>) {
    forall i, j :: 0 <= i < j < |s| ==> s[i].tokenBalance >= s[j].tokenBalance
  }

  /** Places `x` in front of the first user whose balance is not larger than its own. */
  function Insert(x: User, s: seq<User>): (r: seq<User>)
    ensures |r| == |s| + 1
    ensures multiset(r) == multiset(s) + multiset{x}
  {
    if s == [] || x.tokenBalance >= s[0].tokenBalance then [x] + s
    else
      assert s == [s[0]] + s[1..];
      [s[0]] + Insert(x, s[1..])
  }

  /** Every user of `s`, and `x`, has a balance of at most `b`; so has every user of the insertion. */
  lemma {:induction false} InsertBounded(x: User, s: seq<User>, b: real)
    requires x.tokenBalance <= b
    requires forall i :: 0 <= i < |s| ==> s[i].tokenBalance <= b
    ensures forall i :: 0 <= i < |Insert(x, s)| ==> Insert(x, s)[i].tokenBalance <= b
  {
    if s != [] && x.tokenBalance < s[0].tokenBalance {
      InsertBounded(x, s[1..], b);
    }
  }

  /** A sorted list behind a user with at least the largest balance of that list is sorted. */
  lemma ConsSorted(h: User, t: seq<User>)
    requires SortedByBalance(t)
    requires forall i :: 0 <= i < |t| ==> t[i].tokenBalance <= h.tokenBalance
    ensures SortedByBalance([h] + t)
  {
    var r := [h] + t;
    forall i, j | 0 <= i < j < |r|
      ensures r[i].tokenBalance >= r[j].tokenBalance
    {
      assert r[j] == t[j - 1];
      if i > 0 {
        assert r[i] == t[i - 1];
      }
    }
  }

  lemma {:induction false} InsertSorted(x: User, s: seq<User>)
    requires SortedByBalance(s)
    ensures SortedByBalance(Insert(x, s))
  {
    if s == [] || x.tokenBalance >= s[0].tokenBalance {
      if s != [] {
        assert forall i :: 0 <= i < |s| ==> s[i].tokenBalance <= s[0].tokenBalance;
      }
      ConsSorted(x, s);
    } else {
      var t := s[1..];
      assert SortedByBalance(t);
      assert forall i :: 0 <= i < |t| ==> t[i].tokenBalance <= s[0].tokenBalance by {
        forall i | 0 <= i < |t|
          ensures t[i].tokenBalance <= s[0].tokenBalance
        {
          assert t[i] == s[i + 1];
        }
      }
      InsertSorted(x, t);
      InsertBounded(x, t, s[0].tokenBalance);
      ConsSorted(s[0], Insert(x, t));
    }
  }

  /**
   * The array sort with comparator `b.tokenBalance - a.tokenBalance`: a stable sort by
   * non-increasing balance, computed here as an insertion sort.
   */
  function SortByBalance(s: seq<User>): (r: seq<User>)
    ensures SortedByBalance(r)
    ensures multiset(r) == multiset(s)
  {
    if s == [] then []
    else
      assert s == [s[0]] + s[1..];
      var rest := SortByBalance(s[1..]);
      InsertSorted(s[0], rest);
      Insert(s[0], rest)
  }

  /** The users of `s` with balance `b`, in their order in `s`. */
  function WithBalance(s: seq<User>, b: real): seq<User> {
    if s == [] then []
    else (if s[0].tokenBalance == b then [s[0]] else []) + WithBalance(s[1..], b)
  }

  /** Insertion passes over only users with a larger balance, so `x` keeps its place among equal balances. */
  lemma {:induction false} InsertStable(x: User, s: seq<User>, b: real)
    ensures WithBalance(Insert(x, s), b) == (if x.tokenBalance == b then [x] else []) + WithBalance(s, b)
  {
    if s == [] || x.tokenBalance >= s[0].tokenBalance {
      assert ([x] + s)[1..] == s;
    } else {
      var rest := Insert(x, s[1..]);
      var head := if s[0].tokenBalance == b then [s[0]] else [];
      assert ([s[0]] + rest)[1..] == rest;
      assert WithBalance(Insert(x, s), b) == head + WithBalance(rest, b);
      InsertStable(x, s[1..], b);
      assert x.tokenBalance == b ==> head == [];
    }
  }

  /** Stability: users with equal balances keep the order they were listed in. */
  lemma {:induction false} SortIsStable(s: seq<User>, b: real)
    ensures WithBalance(SortByBalance(s), b) == WithBalance(s, b)
  {
    if s != [] {
      SortIsStable(s[1..], b);
      InsertStable(s[0], SortByBalance(s[1..]), b);
    }
  }

  // ---------------------------------------------------------------------------
  // Masking

  predicate StartsWith(s: string, p: string) {
    |p| <= |s| && s[..|p|] == p
  }

  /** JavaScript `s.slice(-4)`: the last four characters, or all of a shorter string. */
  function LastFour(s: string): (r: string)
    ensures |r| == Min(4, |s|) && r == s[|s| - |r|..]
  {
    s[|s| - Min(4, |s|)..]
  }

  /** The name shown for a uid: `Pika Admin` for admin uids, otherwise stars and the last four characters. */
  function Mask(uid: string): (r: string)
    ensures StartsWith(uid, AdminPrefix) ==> r == AdminName
    ensures !StartsWith(uid, AdminPrefix) ==> |r| == |Stars| + Min(4, |uid|) && r[..|Stars|] == Stars && r[|Stars|..] == LastFour(uid)
  {
    if StartsWith(uid, AdminPrefix) then AdminName else Stars + LastFour(uid)
  }

  /** The admin name is shown exactly for admin uids, and a masked uid reveals only its last four characters. */
  lemma MaskShowsAdminOrLastFour(a: string, b: string)
    ensures Mask(a) == AdminName <==> StartsWith(a, AdminPrefix)
    ensures !StartsWith(a, AdminPrefix) && !StartsWith(b, AdminPrefix) ==> (Mask(a) == Mask(b) <==> LastFour(a) == LastFour(b))
  {
    if !StartsWith(a, AdminPrefix) {
      assert Mask(a)[0] == '*' != AdminName[0];
    }
    if !StartsWith(a, AdminPrefix) && !StartsWith(b, AdminPrefix) && Mask(a) == Mask(b) {
      assert LastFour(a) == Mask(a)[|Stars|..];
    }
  }

  // ---------------------------------------------------------------------------
  // Ranking

  /** The rows of the full ranking: rank `index + 1`, masked uid, balance, and whether it is the signed-in user. */
  function Ranked(sorted: seq<User>, user: Option<User>): (r: seq<Entry>)
    ensures |r| == |sorted|
    ensures forall i :: 0 <= i < |r| ==>
      r[i] == Entry(i + 1, Mask(sorted[i].uid), sorted[i].tokenBalance, user.Some? && user.value.uid == sorted[i].uid)
  {
    seq(|sorted|, i requires 0 <= i < |sorted| =>
      Entry(i + 1, Mask(sorted[i].uid), sorted[i].tokenBalance, user.Some? && user.value.uid == sorted[i].uid))
  }

  /** `rows.some(u => u.isCurrentUser)`. */
  predicate HasCurrent(rows: seq<Entry>) {
    exists i :: 0 <= i < |rows| && rows[i].isCurrentUser
  }

  /** The index of `rows.find(u => u.isCurrentUser)`. */
  function FirstCurrent(rows: seq<Entry>): (k: Option<nat>)
    ensures k.Some? ==> k.value < |rows| && rows[k.value].isCurrentUser
    ensures k.Some? ==> forall j :: 0 <= j < k.value ==> !rows[j].isCurrentUser
    ensures k.None? <==> !HasCurrent(rows)
  {
    if rows == [] then None
    else if rows[0].isCurrentUser then Some(0)
    else
      match FirstCurrent(rows[1..])
      case None =>
        assert forall i :: 1 <= i < |rows| ==> rows[i] == rows[1..][i - 1];
        None
      case Some(k) =>
        assert rows[1..][k] == rows[k + 1];
        Some(k + 1)
  }

  /** A row list with no current row among its first `n` has its first current row at `n` or later. */
  lemma CurrentBeyond(rows: seq<Entry>, n: nat)
    requires n <= |rows| && !HasCurrent(rows[..n]) && FirstCurrent(rows).Some?
    ensures n <= FirstCurrent(rows).value
  {
    forall j | 0 <= j < n
      ensures !rows[j].isCurrentUser
    {
      assert rows[..n][j] == rows[j];
    }
  }

  // ---------------------------------------------------------------------------
  // The table

  /** The full ranking of a user list. */
  function RankAll(allUsers: seq<User>, user: Option<User>): (ranked: seq<Entry>)
    ensures |ranked| == |allUsers|
  {
    Ranked(SortByBalance(allUsers), user)
  }

  /** `rankedUsers.slice(0, 50)`. */
  function Top(ranked: seq<Entry>): (top: seq<Entry>)
    ensures |top| == Min(BoardSize, |ranked|) && top == ranked[..|top|]
  {
    ranked[..Min(BoardSize, |ranked|)]
  }

  /**
   * The first 50 ranked rows, except that when someone is signed in and ranked but
   * not among them, their row takes the 50th place.
   */
  function Patch(ranked: seq<Entry>, signedIn: bool): (board: seq<Entry>)
    ensures |board| <= BoardSize
  {
    var top := Top(ranked);
    var k := FirstCurrent(ranked);
    if !signedIn || HasCurrent(top) || k.None? then top
    else
      CurrentBeyond(ranked, |top|);
      ranked[..BoardSize - 1] + [ranked[k.value]]
  }

  /** The table as a value: empty without a user map, else the patched ranking. */
  function Board(allUsers: Option<seq<User>>, user: Option<User>): (board: seq<Entry>)
    ensures |board| <= BoardSize
    ensures allUsers.None? ==> board == []
  {
    if allUsers.None? then [] else Patch(RankAll(allUsers.value, user), user.Some?)
  }

  /**
   * The patch of `leaderboardData`: take the first 50 rows, then overwrite the last one
   * with the signed-in user's row, or append it when there are fewer than 50.
   */
  method PatchTop(rankedUsers: seq<Entry>, signedIn: bool) returns (top50: seq<Entry>)
    ensures top50 == Patch(rankedUsers, signedIn)
  {
    top50 := rankedUsers[..Min(BoardSize, |rankedUsers|)];
    var currentUserInTop50 := HasCurrent(top50);
    if signedIn && !currentUserInTop50 {
      var currentUserRank := FirstCurrent(rankedUsers);
      if currentUserRank.Some? {
        var entry := rankedUsers[currentUserRank.value];
        CurrentBeyond(rankedUsers, |top50|);
        if |top50| == BoardSize {
          top50 := top50[BoardSize - 1 := entry];
          assert top50 == rankedUsers[..BoardSize - 1] + [entry];
        } else {
          top50 := top50 + [entry];
        }
      }
    }
  }

  /** `leaderboardData`: sort by balance, rank, and patch the first 50 rows. */
  method LeaderboardData(allUsers: Option<seq<User>>, user: Option<User>) returns (board: seq<Entry>)
    ensures board == Board(allUsers, user)
  {
    if allUsers.None? {
      return [];
    }
    var sortedUsers := SortByBalance(allUsers.value);
    var rankedUsers := Ranked(sortedUsers, user);
    board := PatchTop(rankedUsers, user.Some?);
  }

  // ---------------------------------------------------------------------------
  // Properties of the table

  /** Without a signed-in user, with that user already among the first 50, or with no row for them, the table is the first 50 rows. */
  lemma UnpatchedWhenShown(ranked: seq<Entry>, signedIn: bool)
    requires !signedIn || HasCurrent(Top(ranked)) || !HasCurrent(ranked)
    ensures Patch(ranked, signedIn) == ranked[..Min(BoardSize, |ranked|)]
  {
  }

  /**
   * The append branch never runs: a row marked current that is missing from the
   * first 50 rows can only exist when there are already 50 of them.
   */
  lemma AppendNeverNeeded(ranked: seq<Entry>)
    requires !HasCurrent(Top(ranked)) && HasCurrent(ranked)
    ensures |Top(ranked)| == BoardSize
    ensures |ranked| > BoardSize
  {
    CurrentBeyond(ranked, |Top(ranked)|);
  }

  /** Balances never increase and ranks strictly increase down the rows. */
  predicate Ordered(rows: seq<Entry>) {
    forall i, j :: 0 <= i < j < |rows| ==> rows[i].tokens >= rows[j].tokens && rows[i].rank < rows[j].rank
  }

  predicate RanksFromOne(rows: seq<Entry>) {
    forall i :: 0 <= i < |rows| ==> rows[i].rank == i + 1
  }

  /** Ranking a list sorted by balance gives ordered rows ranked 1, 2, 3, … */
  lemma RankedOrdered(sorted: seq<User>, user: Option<User>)
    requires SortedByBalance(sorted)
    ensures Ordered(Ranked(sorted, user)) && RanksFromOne(Ranked(sorted, user))
  {
  }

  lemma RankAllOrdered(allUsers: seq<User>, user: Option<User>)
    ensures Ordered(RankAll(allUsers, user)) && RanksFromOne(RankAll(allUsers, user))
  {
    RankedOrdered(SortByBalance(allUsers), user);
  }

  /** The patch keeps the order, and every row but the last keeps rank `index + 1`. */
  lemma PatchOrdered(ranked: seq<Entry>, signedIn: bool)
    requires Ordered(ranked) && RanksFromOne(ranked)
    ensures Ordered(Patch(ranked, signedIn))
    ensures forall i :: 0 <= i < |Patch(ranked, signedIn)| - 1 ==> Patch(ranked, signedIn)[i].rank == i + 1
  {
    var k := FirstCurrent(ranked);
    if signedIn && !HasCurrent(Top(ranked)) && k.Some? {
      CurrentBeyond(ranked, |Top(ranked)|);
      var board := ranked[..BoardSize - 1] + [ranked[k.value]];
      assert forall i :: 0 <= i < BoardSize - 1 ==> board[i] == ranked[i];
      assert Patch(ranked, signedIn) == board;
    }
  }

  /** Rows are in order of non-increasing balance and increasing rank; every row but the last has rank `index + 1`. */
  lemma BoardOrdered(allUsers: seq<User>, user: Option<User>)
    ensures Ordered(Board(Some(allUsers), user))
    ensures forall i :: 0 <= i < |Board(Some(allUsers), user)| - 1 ==> Board(Some(allUsers), user)[i].rank == i + 1
  {
    RankAllOrdered(allUsers, user);
    PatchOrdered(RankAll(allUsers, user), user.Some?);
  }

  /** The number of records with uid `id`. */
  function CountUid(s: seq<User>, id: string): nat {
    if s == [] then 0 else (if s[0].uid == id then 1 else 0) + CountUid(s[1..], id)
  }

  lemma {:induction false} InsertCount(x: User, s: seq<User>, id: string)
    ensures CountUid(Insert(x, s), id) == CountUid(s, id) + (if x.uid == id then 1 else 0)
  {
    if s == [] || x.tokenBalance >= s[0].tokenBalance {
      assert ([x] + s)[1..] == s;
    } else {
      var rest := Insert(x, s[1..]);
      assert ([s[0]] + rest)[1..] == rest;
      InsertCount(x, s[1..], id);
    }
  }

  lemma {:induction false} SortKeepsCount(s: seq<User>, id: string)
    ensures CountUid(SortByBalance(s), id) == CountUid(s, id)
  {
    if s != [] {
      SortKeepsCount(s[1..], id);
      InsertCount(s[0], SortByBalance(s[1..]), id);
    }
  }

  lemma {:induction false} NoRecord(s: seq<User>, id: string)
    requires CountUid(s, id) == 0
    ensures forall j :: 0 <= j < |s| ==> s[j].uid != id
  {
    if s != [] {
      NoRecord(s[1..], id);
      forall j | 1 <= j < |s|
        ensures s[j].uid != id
      {
        assert s[j] == s[1..][j - 1];
      }
    }
  }

  lemma {:induction false} OneRecord(s: seq<User>, id: string)
    requires CountUid(s, id) == 1
    ensures exists i :: 0 <= i < |s| && s[i].uid == id
    ensures forall i, j :: 0 <= i < |s| && 0 <= j < |s| && s[i].uid == id && s[j].uid == id ==> i == j
  {
    if s[0].uid == id {
      NoRecord(s[1..], id);
      forall j | 1 <= j < |s|
        ensures s[j].uid != id
      {
        assert s[j] == s[1..][j - 1];
      }
    } else {
      OneRecord(s[1..], id);
      forall i | 1 <= i < |s|
        ensures s[i] == s[1..][i - 1]
      {
      }
      var k :| 0 <= k < |s[1..]| && s[1..][k].uid == id;
      assert s[k + 1].uid == id;
    }
  }

  /** `i` is the one row of `rows` marked as the signed-in user. */
  predicate OnlyCurrentAt(rows: seq<Entry>, i: nat) {
    i < |rows| && rows[i].isCurrentUser && forall j :: 0 <= j < |rows| && rows[j].isCurrentUser ==> j == i
  }

  /** Ranking a list in which the user has exactly one record marks exactly one row. */
  lemma RankedOneCurrent(sorted: seq<User>, user: User)
    requires CountUid(sorted, user.uid) == 1
    ensures FirstCurrent(Ranked(sorted, Some(user))).Some?
    ensures OnlyCurrentAt(Ranked(sorted, Some(user)), FirstCurrent(Ranked(sorted, Some(user))).value)
  {
    var ranked := Ranked(sorted, Some(user));
    OneRecord(sorted, user.uid);
    var i :| 0 <= i < |sorted| && sorted[i].uid == user.uid;
    assert ranked[i].isCurrentUser;
    assert !FirstCurrent(ranked).None?;
  }

  /** In the full ranking, a user with exactly one record has exactly one row. */
  lemma RankAllOneCurrent(allUsers: seq<User>, user: User)
    requires CountUid(allUsers, user.uid) == 1
    ensures FirstCurrent(RankAll(allUsers, Some(user))).Some?
    ensures OnlyCurrentAt(RankAll(allUsers, Some(user)), FirstCurrent(RankAll(allUsers, Some(user))).value)
  {
    SortKeepsCount(allUsers, user.uid);
    RankedOneCurrent(SortByBalance(allUsers), user);
  }

  /**
   * A signed-in user ranked below the first 50 takes the 50th row: the first 49
   * ranked rows are kept and their own ranked row follows them.
   */
  lemma PatchReplacesLastRow(ranked: seq<Entry>)
    requires FirstCurrent(ranked).Some? && FirstCurrent(ranked).value >= BoardSize
    ensures |Patch(ranked, true)| == BoardSize
    ensures Patch(ranked, true)[..BoardSize - 1] == ranked[..BoardSize - 1]
    ensures Patch(ranked, true)[BoardSize - 1] == ranked[FirstCurrent(ranked).value]
  {
    var top := Top(ranked);
    var k := FirstCurrent(ranked).value;
    forall j | 0 <= j < |top|
      ensures !top[j].isCurrentUser
    {
      assert top[j] == ranked[j];
    }
    assert !HasCurrent(top);
    assert Patch(ranked, true) == ranked[..BoardSize - 1] + [ranked[k]];
  }

  /**
   * When exactly one ranked row is marked current, the patched table shows exactly
   * that row once: in its own place among the first 50, or else as the 50th row
   * after the first 49 ranked rows.
   */
  lemma PatchShowsCurrentOnce(ranked: seq<Entry>)
    requires FirstCurrent(ranked).Some? && OnlyCurrentAt(ranked, FirstCurrent(ranked).value)
    ensures exists i: nat :: OnlyCurrentAt(Patch(ranked, true), i) && Patch(ranked, true)[i] == ranked[FirstCurrent(ranked).value]
    ensures FirstCurrent(ranked).value < BoardSize ==>
      Patch(ranked, true) == Top(ranked) && OnlyCurrentAt(Patch(ranked, true), FirstCurrent(ranked).value)
    ensures FirstCurrent(ranked).value >= BoardSize ==>
      && |Patch(ranked, true)| == BoardSize
      && Patch(ranked, true)[..BoardSize - 1] == ranked[..BoardSize - 1]
      && OnlyCurrentAt(Patch(ranked, true), BoardSize - 1)
  {
    var top := Top(ranked);
    var board := Patch(ranked, true);
    var k := FirstCurrent(ranked).value;
    if k < |top| {
      assert top[k] == ranked[k];
      assert HasCurrent(top);
      assert board == top;
      assert OnlyCurrentAt(board, k);
    } else {
      CurrentBeyond(ranked, |top|);
      PatchReplacesLastRow(ranked);
      assert forall j :: 0 <= j < BoardSize - 1 ==> board[j] == ranked[..BoardSize - 1][j] == ranked[j];
      assert OnlyCurrentAt(board, BoardSize - 1);
    }
  }

  /**
   * A signed-in user with exactly one record appears in the table exactly once, in the
   * row the full ranking gives them (with their true rank).
   */
  lemma CurrentUserShownOnce(allUsers: seq<User>, user: User)
    requires CountUid(allUsers, user.uid) == 1
    ensures FirstCurrent(RankAll(allUsers, Some(user))).Some?
    ensures exists i: nat :: (OnlyCurrentAt(Board(Some(allUsers), Some(user)), i)
      && Board(Some(allUsers), Some(user))[i] == RankAll(allUsers, Some(user))[FirstCurrent(RankAll(allUsers, Some(user))).value])
  {
    var ranked := RankAll(allUsers, Some(user));
    RankAllOneCurrent(allUsers, user);
    PatchShowsCurrentOnce(ranked);
    assert Board(Some(allUsers), Some(user)) == Patch(ranked, true);
  }
}
