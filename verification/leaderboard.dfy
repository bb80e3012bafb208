/** The `!leaderboard` reply: one line per leader, where leaders with the
    same motto count share the position of the first of them. */
module Leaderboard {
  import opened Common
  import Text
  import opened Models

  /** The names of the number emoji; a position past nine has none. */
  const Numbers: seq<string> := ["zero", "one", "two", "three", "four", "five", "six", "seven", "eight", "nine"]

  const EmptyBoard := "There doesn't appear to be anybody on the leaderboard!"

  /** The index of the first entry in the run of equal counts that entry
      `i` belongs to. */
  function RunStart(counts: seq<int>, i: nat): (k: nat)
    requires i < |counts|
    ensures k <= i
    ensures forall j :: k <= j <= i ==> counts[j] == counts[i]
    ensures k == 0 || counts[k - 1] != counts[i]
  {
    if i == 0 || counts[i - 1] != counts[i] then i else RunStart(counts, i - 1)
  }

  /** The ranking loop of the leaderboard command: each leader's 1-based
      position, shared by a run of equal counts. */
  method Ranks(counts: seq<int>) returns (ranks: seq<nat>)
    ensures |ranks| == |counts|
    ensures forall i :: 0 <= i < |counts| ==> ranks[i] == RunStart(counts, i) + 1
  {
    ranks := [];
    var previousCount: Option<int> := None;
    var previousPosition: nat := 1;
    var position: nat := 1;
    while position <= |counts|
      invariant 1 <= position <= |counts| + 1
      invariant |ranks| == position - 1
      invariant forall i :: 0 <= i < position - 1 ==> ranks[i] == RunStart(counts, i) + 1
      invariant position == 1 ==> previousCount.None?
      invariant position > 1 ==> previousCount == Some(counts[position - 2])
      invariant position > 1 ==> previousPosition == RunStart(counts, position - 2) + 1
    {
      var count := counts[position - 1];
      var pos := if previousCount == Some(count) then previousPosition else position;
      ranks := ranks + [pos];
      if previousCount != Some(count) {
        previousCount := Some(count);
        previousPosition := position;
      }
      position := position + 1;
    }
  }

  /** How many of the first `n` counts exceed `v`. */
  function CountAbove(counts: seq<int>, n: nat, v: int): nat
    requires n <= |counts|
  {
    if n == 0 then 0 else CountAbove(counts, n - 1, v) + (if counts[n - 1] > v then 1 else 0)
  }

  predicate NonIncreasing(counts: seq<int>) {
    forall i, j :: 0 <= i <= j < |counts| ==> counts[i] >= counts[j]
  }

  lemma {:induction false} CountAboveAll(counts: seq<int>, n: nat, v: int)
    requires n <= |counts| && forall j :: 0 <= j < n ==> counts[j] > v
    ensures CountAbove(counts, n, v) == n
  {
    if n > 0 {
      CountAboveAll(counts, n - 1, v);
    }
  }

  lemma {:induction false} CountAboveNone(counts: seq<int>, k: nat, n: nat, v: int)
    requires k <= n <= |counts| && forall j :: k <= j < n ==> counts[j] <= v
    ensures CountAbove(counts, n, v) == CountAbove(counts, k, v)
    decreases n - k
  {
    if k < n {
      CountAboveNone(counts, k, n - 1, v);
    }
  }

  /** On a board sorted by count, a leader's position is one more than the
      number of leaders with a strictly higher count ("1224" ranking). */
  lemma RankCountsHigher(counts: seq<int>, i: nat)
    requires i < |counts| && NonIncreasing(counts)
    ensures RunStart(counts, i) == CountAbove(counts, i, counts[i])
  {
    var k := RunStart(counts, i);
    CountAboveAll(counts, k, counts[i]);
    CountAboveNone(counts, k, i, counts[i]);
  }

  /** A leader's line: the position's number emoji, a mention, the shown
      name and the count, with "motto" pluralised above one. */
  function LeaderLine(rank: nat, m: Member): (r: Result<string>)
    ensures r.Ok? <==> rank < |Numbers|
    ensures r.Ok? ==> Text.StartsWith(r.value, ":" + Numbers[rank] + ": <@")
    ensures r.Ok? ==> Text.EndsWith(r.value, if m.mottoCount > 1 then "mottos)\n" else "motto)\n")
  {
    if rank >= |Numbers| then Err(IndexError)
    else
      var head := ":" + Numbers[rank] + ": <@";
      var tail := if m.mottoCount > 1 then "mottos)\n" else "motto)\n";
      var body := Show(m.discordId) + "> " + DisplayName(m) + " (" + Text.IntToString(m.mottoCount) + " ";
      Text.AffixesOfConcat(head, body, tail);
      Ok(head + body + tail)
  }

  /** The lines of the board, in order, for the given positions. */
  function Lines(leaders: seq<Member>, ranks: seq<nat>): (r: Result<string>)
    requires |ranks| == |leaders|
    ensures r.Ok? <==> forall i :: 0 <= i < |ranks| ==> ranks[i] < |Numbers|
  {
    if leaders == [] then Ok("")
    else
      var line :- LeaderLine(ranks[0], leaders[0]);
      var rest :- Lines(leaders[1..], ranks[1..]);
      assert forall i :: 1 <= i < |ranks| ==> ranks[i] == ranks[1..][i - 1];
      Ok(line + rest)
  }

  function MottoCounts(leaders: seq<Member>): (counts: seq<int>)
    ensures |counts| == |leaders| && forall i :: 0 <= i < |leaders| ==> counts[i] == leaders[i].mottoCount
  {
    seq(|leaders|, i requires 0 <= i < |leaders| => leaders[i].mottoCount)
  }

  /** Each leader's position on the board: the first position of its run
      of equal counts. */
  function Positions(leaders: seq<Member>): (ranks: seq<nat>)
    ensures |ranks| == |leaders|
    ensures forall i :: 0 <= i < |leaders| ==> ranks[i] == RunStart(MottoCounts(leaders), i) + 1
  {
    var counts := MottoCounts(leaders);
    seq(|leaders|, i requires 0 <= i < |leaders| => RunStart(counts, i) + 1)
  }

  /** The leaderboard reply for the leaders the store returned, best
      first. */
  method Board(leaders: seq<Member>) returns (r: Result<string>)
    ensures leaders == [] ==> r == Ok(EmptyBoard)
    ensures leaders != [] ==> r == Lines(leaders, Positions(leaders))
  {
    if leaders == [] {
      return Ok(EmptyBoard);
    }
    var ranks := Ranks(MottoCounts(leaders));
    assert ranks == Positions(leaders);
    r := Lines(leaders, ranks);
  }

  /** The store is asked for five leaders; up to nine always fit. */
  lemma NineLeadersFit(leaders: seq<Member>)
    requires |leaders| <= 9
    ensures Lines(leaders, Positions(leaders)).Ok?
  {
    var ranks := Positions(leaders);
    assert forall i :: 0 <= i < |ranks| ==> ranks[i] <= i + 1;
  }
}
