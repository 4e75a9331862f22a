/**
  The bracket of the tourni app: padding to a power of two, pairing from both ends, picking
  winners with changes of mind, and the rounds that leave one group.
 */
module Bracket {
  import opened Bits

  const FREE := "FREE"

  datatype Group = Group(name: string, seed: int, status: bool)

  /** A Tournament: its groups, who is still in, who is out, and the groups of every round. */
  datatype State = State(groups: seq<Group>, winners: seq<Group>, losers: seq<Group>, rounds: seq<seq<Group>>)

  // ------------------------------------------------------------------ names

  /** Groups are the same if their names are. */
  predicate Contains(gs: seq<Group>, name: string) {
    exists i :: 0 <= i < |gs| && gs[i].name == name
  }

  /** filter { $0 != group }. */
  function Without(gs: seq<Group>, name: string): seq<Group> {
    if gs == [] then []
    else if gs[|gs| - 1].name == name then Without(gs[..|gs| - 1], name)
    else Without(gs[..|gs| - 1], name) + [gs[|gs| - 1]]
  }

  function Added(gs: seq<Group>, g: Group): seq<Group> {
    if Contains(gs, g.name) then gs else gs + [g]
  }

  function Names(gs: seq<Group>): (names: seq<string>)
    ensures |names| == |gs| && forall i :: 0 <= i < |gs| ==> names[i] == gs[i].name
  {
    seq(|gs|, i requires 0 <= i < |gs| => gs[i].name)
  }

  /** No name is twice among these, but for FREE. */
  predicate Distinct(gs: seq<Group>) {
    forall i, j :: 0 <= i < j < |gs| && gs[i].name == gs[j].name ==> gs[i].name == FREE
  }

  lemma {:induction false} WithoutContains(gs: seq<Group>, name: string, x: string)
    ensures Contains(Without(gs, name), x) <==> Contains(gs, x) && x != name
  {
    if gs != [] {
      var front, last := gs[..|gs| - 1], gs[|gs| - 1];
      WithoutContains(front, name, x);
      assert gs == front + [last];
      AppendContains(front, last, x);
      AppendContains(Without(front, name), last, x);
    }
  }

  lemma AppendContains(gs: seq<Group>, g: Group, x: string)
    ensures Contains(gs + [g], x) <==> Contains(gs, x) || x == g.name
  {
    if Contains(gs, x) {
      var i :| 0 <= i < |gs| && gs[i].name == x;
      assert (gs + [g])[i].name == x;
    }
    if x == g.name { assert (gs + [g])[|gs|].name == x; }
  }

  lemma AddedContains(gs: seq<Group>, g: Group, x: string)
    ensures Contains(Added(gs, g), x) <==> Contains(gs, x) || x == g.name
  {
    AppendContains(gs, g, x);
  }

  lemma {:induction false} WithoutDistinct(gs: seq<Group>, name: string)
    requires Distinct(gs)
    ensures Distinct(Without(gs, name))
  {
    if gs != [] {
      var front, last := gs[..|gs| - 1], gs[|gs| - 1];
      WithoutDistinct(front, name);
      WithoutContains(front, name, last.name);
      if last.name != name { AppendDistinct(Without(front, name), last); }
    }
  }

  lemma AppendDistinct(gs: seq<Group>, g: Group)
    requires Distinct(gs) && (g.name == FREE || !Contains(gs, g.name))
    ensures Distinct(gs + [g])
  {
  }

  // ------------------------------------------------------------------ steps

  /** makeLoser. */
  function MadeLoser(s: State, g: Group): State {
    s.(winners := Without(s.winners, g.name), losers := Added(s.losers, g))
  }

  /** makeWinner. */
  function MadeWinner(s: State, g: Group): State {
    s.(losers := Without(s.losers, g.name), winners := Added(s.winners, g))
  }

  function WithStatus(gs: seq<Group>, winner: string, loser: string): (r: seq<Group>)
    ensures Names(r) == Names(gs)
  {
    seq(|gs|, i requires 0 <= i < |gs| =>
      if gs[i].name == winner then gs[i].(status := true)
      else if gs[i].name == loser then gs[i].(status := false)
      else gs[i])
  }

  /** updateWinner. */
  function Picked(s: State, winner: Group, loser: Group, round: nat): State
    requires 1 <= round <= |s.rounds|
  {
    var marked := s.(rounds := s.rounds[round - 1 := WithStatus(s.rounds[round - 1], winner.name, loser.name)]);
    MadeWinner(MadeLoser(marked, loser), winner)
  }

  /** nextRound. */
  function Advanced(s: State): State {
    s.(rounds := s.rounds + [s.winners])
  }

  /** A tap in row match of the current round, on its second group or its first. */
  datatype Pick = Pick(row: nat, second: bool)

  /** The pairing: row i shows group i and the group that is as far from the end. */
  function WinnerAt(p: Pick, n: nat): int {
    if p.second then n - 1 - p.row else p.row
  }

  function LoserAt(p: Pick, n: nat): int {
    if p.second then p.row else n - 1 - p.row
  }

  /** A pick of this round; FREE cannot be picked. */
  predicate Allowed(names: seq<string>, p: Pick) {
    p.row < |names| / 2 && names[WinnerAt(p, |names|)] != FREE
  }

  predicate AllAllowed(names: seq<string>, picks: seq<Pick>) {
    forall j :: 0 <= j < |picks| ==> Allowed(names, picks[j])
  }

  predicate Decided(picks: seq<Pick>, row: nat) {
    exists j :: 0 <= j < |picks| && picks[j].row == row
  }

  predicate Complete(names: seq<string>, picks: seq<Pick>) {
    forall row :: 0 <= row < |names| / 2 ==> Decided(picks, row)
  }

  function Current(s: State): seq<Group>
    requires s.rounds != []
  {
    s.rounds[|s.rounds| - 1]
  }

  /** A pick changes no name of the current round and nothing of the earlier ones. */
  lemma PickedRounds(s: State, winner: Group, loser: Group)
    requires s.rounds != []
    ensures var t := Picked(s, winner, loser, |s.rounds|);
      |t.rounds| == |s.rounds| && Names(Current(t)) == Names(Current(s)) && t.groups == s.groups &&
      t.rounds[..|s.rounds| - 1] == s.rounds[..|s.rounds| - 1]
  {
    hide Without, Contains, Names;
  }

  /** The state after these picks in the current round. */
  function AfterPicks(s: State, picks: seq<Pick>): (t: State)
    requires s.rounds != [] && AllAllowed(Names(Current(s)), picks)
    ensures |t.rounds| == |s.rounds| && Names(Current(t)) == Names(Current(s))
    ensures t.groups == s.groups && t.rounds[..|s.rounds| - 1] == s.rounds[..|s.rounds| - 1]
  {
    if picks == [] then s
    else
      var before := AfterPicks(s, picks[..|picks| - 1]);
      var p := picks[|picks| - 1];
      var gs := Current(before);
      assert |gs| == |Names(gs)|;
      assert Allowed(Names(gs), p);
      PickedRounds(before, gs[WinnerAt(p, |gs|)], gs[LoserAt(p, |gs|)]);
      hide Picked;
      Picked(before, gs[WinnerAt(p, |gs|)], gs[LoserAt(p, |gs|)], |s.rounds|)
  }

  // ------------------------------------------------------------------ one round

  /** The names of a round: only FREE can be there twice, and never in the first half. */
  predicate RoundNames(names: seq<string>) {
    (forall i, j :: 0 <= i < j < |names| && names[i] == names[j] ==> names[i] == FREE) &&
    (forall i :: 0 <= i < |names| && 2 * i < |names| ==> names[i] != FREE)
  }

  /** The last pick that names x lets it lose. */
  predicate Out(names: seq<string>, picks: seq<Pick>, x: string)
    requires AllAllowed(names, picks)
  {
    picks != [] &&
    var p := picks[|picks| - 1];
    assert Allowed(names, p);
    if x == names[WinnerAt(p, |names|)] then false
    else if x == names[LoserAt(p, |names|)] then true
    else Out(names, picks[..|picks| - 1], x)
  }

  /** Who is in and who is out, by name, with what the picks say. */
  ghost predicate Agrees(names: seq<string>, lost: seq<Group>, picks: seq<Pick>, s: State)
    requires AllAllowed(names, picks)
  {
    Distinct(s.winners) && Distinct(s.losers) &&
    (forall x: string :: Contains(s.winners, x) <==> x in names && !Out(names, picks, x)) &&
    (forall x: string :: Contains(s.losers, x) <==> Contains(lost, x) || Out(names, picks, x))
  }

  lemma PickedContains(s: State, winner: Group, loser: Group, round: nat, x: string)
    requires 1 <= round <= |s.rounds| && winner.name != loser.name
    ensures var t := Picked(s, winner, loser, round);
      (Contains(t.winners, x) <==> x == winner.name || (Contains(s.winners, x) && x != loser.name)) &&
      (Contains(t.losers, x) <==> x == loser.name || (Contains(s.losers, x) && x != winner.name))
  {
    hide Contains, Added, Without;
    WithoutContains(s.winners, loser.name, x);
    AddedContains(Without(s.winners, loser.name), winner, x);
    AddedContains(s.losers, loser, x);
    WithoutContains(Added(s.losers, loser), winner.name, x);
  }

  lemma PickedDistinct(s: State, winner: Group, loser: Group, round: nat)
    requires 1 <= round <= |s.rounds| && Distinct(s.winners) && Distinct(s.losers)
    ensures var t := Picked(s, winner, loser, round); Distinct(t.winners) && Distinct(t.losers)
  {
    hide Contains, Distinct, Without;
    WithoutDistinct(s.winners, loser.name);
    var ws := Without(s.winners, loser.name);
    if !Contains(ws, winner.name) { AppendDistinct(ws, winner); }
    if !Contains(s.losers, loser.name) { AppendDistinct(s.losers, loser); }
    WithoutDistinct(Added(s.losers, loser), winner.name);
  }

  /** One more pick. */
  lemma PickAgrees(names: seq<string>, lost: seq<Group>, picks: seq<Pick>, s: State, winner: Group, loser: Group)
    requires RoundNames(names) && picks != [] && AllAllowed(names, picks) && (forall x :: x in names ==> !Contains(lost, x))
    requires s.rounds != [] && Agrees(names, lost, picks[..|picks| - 1], s) && Allowed(names, picks[|picks| - 1])
    requires winner.name == names[WinnerAt(picks[|picks| - 1], |names|)] && loser.name == names[LoserAt(picks[|picks| - 1], |names|)]
    ensures Agrees(names, lost, picks, Picked(s, winner, loser, |s.rounds|))
  {
    var t := Picked(s, winner, loser, |s.rounds|);
    var front := picks[..|picks| - 1];
    assert winner.name != loser.name;
    PickedDistinct(s, winner, loser, |s.rounds|);
    assert winner.name in names && loser.name in names;
    assert forall x :: Out(names, picks, x) <==> x != winner.name && (x == loser.name || Out(names, front, x));
    hide Contains, Picked, Distinct, RoundNames, AllAllowed, Out;
    forall x: string
      ensures Contains(t.winners, x) <==> x in names && !Out(names, picks, x)
      ensures Contains(t.losers, x) <==> Contains(lost, x) || Out(names, picks, x)
    {
      PickedContains(s, winner, loser, |s.rounds|, x);
    }
  }

  /** Any order of picks and any change of mind: a group is out exactly if the last pick that
      names it let it lose, and the others are in. */
  lemma {:induction false} PicksAgree(s: State, picks: seq<Pick>)
    requires s.rounds != []
    requires var names := Names(Current(s));
      RoundNames(names) && AllAllowed(names, picks) && Agrees(names, s.losers, [], s) && forall x :: x in names ==> !Contains(s.losers, x)
    ensures Agrees(Names(Current(s)), s.losers, picks, AfterPicks(s, picks))
  {
    var names := Names(Current(s));
    if picks != [] {
      var front := picks[..|picks| - 1];
      var p := picks[|picks| - 1];
      assert AllAllowed(names, front) && Allowed(names, p);
      hide Agrees, RoundNames, AllAllowed, Picked, Contains;
      PicksAgree(s, front);
      var before := AfterPicks(s, front);
      var winner, loser := Current(before)[WinnerAt(p, |names|)], Current(before)[LoserAt(p, |names|)];
      assert winner.name == names[WinnerAt(p, |names|)] && loser.name == names[LoserAt(p, |names|)];
      PickAgrees(names, s.losers, picks, before, winner, loser);
    }
  }

  /** In a decided row one group is in and the other out; a FREE is out. */
  lemma {:induction false} DecidedRow(names: seq<string>, picks: seq<Pick>, row: nat)
    requires RoundNames(names) && AllAllowed(names, picks) && row < |names| / 2 && Decided(picks, row)
    ensures var a, b := names[row], names[|names| - 1 - row];
      Out(names, picks, a) != Out(names, picks, b) && (b == FREE ==> Out(names, picks, b))
  {
    var p := picks[|picks| - 1];
    assert Allowed(names, p);
    if p.row != row {
      var front := picks[..|picks| - 1];
      var j :| 0 <= j < |picks| && picks[j].row == row;
      assert front[j].row == row;
      DecidedRow(names, front, row);
    }
  }

  /** The winner of a decided row. */
  function RowWinner(names: seq<string>, picks: seq<Pick>, row: nat): string
    requires AllAllowed(names, picks) && row < |names| / 2
  {
    if Out(names, picks, names[row]) then names[|names| - 1 - row] else names[row]
  }

  function RowWinners(names: seq<string>, picks: seq<Pick>): (r: seq<string>)
    requires AllAllowed(names, picks)
    ensures |r| == |names| / 2 && forall row :: 0 <= row < |r| ==> r[row] == RowWinner(names, picks, row)
  {
    seq(|names| / 2, row requires 0 <= row < |names| / 2 => RowWinner(names, picks, row))
  }

  predicate NoRepeat(names: seq<string>) {
    forall i, j :: 0 <= i < j < |names| ==> names[i] != names[j]
  }

  lemma {:induction false} NoRepeatCounts(names: seq<string>)
    requires NoRepeat(names)
    ensures |set x | x in names| == |names|
  {
    if names != [] {
      var front, last := names[..|names| - 1], names[|names| - 1];
      NoRepeatCounts(front);
      assert (set x | x in names) == (set x | x in front) + {last};
      assert last !in front;
    }
  }

  /** When every row is decided the winners are the row winners, one for each. */
  lemma RoundEnds(names: seq<string>, lost: seq<Group>, picks: seq<Pick>, s: State)
    requires RoundNames(names) && |names| % 2 == 0 && AllAllowed(names, picks) && Complete(names, picks) && Agrees(names, lost, picks, s)
    ensures |s.winners| == |names| / 2
    ensures NoRepeat(Names(s.winners)) && FREE !in Names(s.winners)
    ensures forall x :: x in Names(s.winners) <==> x in RowWinners(names, picks)
  {
    hide RoundNames, Complete, Out, Decided;
    var rows := RowWinners(names, picks);
    var ins := Names(s.winners);
    forall row | 0 <= row < |rows| ensures rows[row] in ins && rows[row] != FREE {
      RowInOut(names, picks, row);
      assert Contains(s.winners, rows[row]);
    }
    forall x | x in ins ensures x in rows && x != FREE {
      assert Contains(s.winners, x);
      var i :| 0 <= i < |names| && names[i] == x;
      var row := if i < |names| / 2 then i else |names| - 1 - i;
      RowInOut(names, picks, row);
      assert rows[row] == x;
    }
    RowsNoRepeat(names, picks);
    forall i, j | 0 <= i < j < |ins| ensures ins[i] != ins[j] {
      assert ins[i] == s.winners[i].name && ins[j] == s.winners[j].name && ins[i] in ins;
    }
    NoRepeatCounts(rows);
    NoRepeatCounts(ins);
    assert (set x | x in ins) == (set x | x in rows);
  }

  lemma RowInOut(names: seq<string>, picks: seq<Pick>, row: nat)
    requires RoundNames(names) && AllAllowed(names, picks) && Complete(names, picks) && row < |names| / 2
    ensures var w := RowWinner(names, picks, row);
      w in names && w != FREE && !Out(names, picks, w) &&
      (forall x :: x in [names[row], names[|names| - 1 - row]] && x != w ==> Out(names, picks, x))
  {
    hide Out, Decided;
    DecidedRow(names, picks, row);
  }

  lemma RowsNoRepeat(names: seq<string>, picks: seq<Pick>)
    requires RoundNames(names) && AllAllowed(names, picks) && Complete(names, picks)
    ensures NoRepeat(RowWinners(names, picks))
  {
    hide Out, Complete;
    var rows := RowWinners(names, picks);
    forall i, j | 0 <= i < j < |rows| ensures rows[i] != rows[j] {
      RowInOut(names, picks, i);
      RowInOut(names, picks, j);
    }
  }

  // ------------------------------------------------------------------ the tournament

  function PlayRound(s: State, picks: seq<Pick>): State
    requires s.rounds != [] && AllAllowed(Names(Current(s)), picks)
  {
    Advanced(AfterPicks(s, picks))
  }

  /** Every match of every round is decided. */
  predicate AllDecided(s: State, plays: seq<seq<Pick>>)
    requires s.rounds != []
    decreases |plays|
  {
    plays == [] ||
    (AllAllowed(Names(Current(s)), plays[0]) && Complete(Names(Current(s)), plays[0]) && AllDecided(PlayRound(s, plays[0]), plays[1..]))
  }

  function PlayAll(s: State, plays: seq<seq<Pick>>): (t: State)
    requires s.rounds != [] && AllDecided(s, plays)
    ensures t.rounds != []
    decreases |plays|
  {
    if plays == [] then s else PlayAll(PlayRound(s, plays[0]), plays[1..])
  }

  /** Between rounds with 2^k groups left: who is in is who plays next, and together with who is
      out they are all the names. */
  ghost predicate Ready(s: State, k: nat, all: iset<string>) {
    s.rounds != [] && Names(Current(s)) == Names(s.winners) && |s.winners| == Pow2(k) &&
    RoundNames(Names(s.winners)) && Distinct(s.losers) &&
    (forall x :: x in Names(s.winners) ==> !Contains(s.losers, x)) &&
    (forall x :: x in all <==> x in Names(s.winners) || Contains(s.losers, x))
  }

  lemma ReadyAgrees(s: State, k: nat, all: iset<string>)
    requires Ready(s, k, all)
    ensures Agrees(Names(Current(s)), s.losers, [], s)
  {
    forall x: string ensures Contains(s.winners, x) <==> x in Names(s.winners) {
      if x in Names(s.winners) {
        var i :| 0 <= i < |s.winners| && Names(s.winners)[i] == x;
        assert s.winners[i].name == x;
      }
    }
    forall i, j | 0 <= i < j < |s.winners| && s.winners[i].name == s.winners[j].name ensures s.winners[i].name == FREE {
      assert Names(s.winners)[i] == Names(s.winners)[j];
    }
  }

  lemma NamesContain(gs: seq<Group>, x: string)
    ensures Contains(gs, x) <==> x in Names(gs)
  {
    if Contains(gs, x) {
      var i :| 0 <= i < |gs| && gs[i].name == x;
      assert Names(gs)[i] == x;
    }
  }

  /** A decided round halves the groups, keeps every name on one side, and leaves no FREE in. */
  lemma RoundHalves(s: State, k: nat, all: iset<string>, picks: seq<Pick>)
    requires k >= 1 && Ready(s, k, all) && AllAllowed(Names(Current(s)), picks) && Complete(Names(Current(s)), picks)
    ensures Ready(PlayRound(s, picks), k - 1, all) && FREE !in Names(PlayRound(s, picks).winners)
    ensures PlayRound(s, picks).rounds[..|s.rounds| - 1] == s.rounds[..|s.rounds| - 1]
    ensures Names(PlayRound(s, picks).rounds[|s.rounds| - 1]) == Names(Current(s)) && |PlayRound(s, picks).rounds| == |s.rounds| + 1
  {
    var names := Names(Current(s));
    assert |names| == Pow2(k) == 2 * Pow2(k - 1);
    ReadyAgrees(s, k, all);
    PicksAgree(s, picks);
    var t := AfterPicks(s, picks);
    hide AllAllowed, Complete, AfterPicks, RoundNames, Names, Pow2;
    RoundEnds(names, s.losers, picks, t);
    RoundConserves(names, s.losers, picks, t);
    RealNames(Names(t.winners));
    NextIsReady(s, t, k, all);
  }

  /** The winners of a round that conserved the names play the next. */
  lemma NextIsReady(s: State, t: State, k: nat, all: iset<string>)
    requires k >= 1 && Ready(s, k, all) && |t.winners| == Pow2(k - 1) && RoundNames(Names(t.winners)) && Distinct(t.losers)
    requires forall x: string :: x in Names(t.winners) || Contains(t.losers, x) <==> x in Names(Current(s)) || Contains(s.losers, x)
    requires forall x :: x in Names(t.winners) ==> !Contains(t.losers, x)
    ensures Ready(Advanced(t), k - 1, all)
  {
    hide RoundNames, Names, Pow2, Contains, Distinct;
    assert Current(Advanced(t)) == t.winners;
  }

  lemma RealNames(names: seq<string>)
    requires NoRepeat(names) && FREE !in names
    ensures RoundNames(names)
  {
  }

  /** Every name of a round is in or out, and none both. */
  lemma RoundConserves(names: seq<string>, lost: seq<Group>, picks: seq<Pick>, s: State)
    requires AllAllowed(names, picks) && Agrees(names, lost, picks, s) && forall x :: x in names ==> !Contains(lost, x)
    ensures forall x: string :: x in Names(s.winners) || Contains(s.losers, x) <==> x in names || Contains(lost, x)
    ensures forall x :: x in Names(s.winners) ==> !Contains(s.losers, x)
    ensures Distinct(s.losers)
  {
    hide Contains, AllAllowed, Distinct, Names, Out;
    forall x: string
      ensures x in Names(s.winners) || Contains(s.losers, x) <==> x in names || Contains(lost, x)
      ensures x in Names(s.winners) ==> !Contains(s.losers, x)
    {
      NamesContain(s.winners, x);
      OutIsNamed(names, picks, x);
    }
  }

  lemma {:induction false} OutIsNamed(names: seq<string>, picks: seq<Pick>, x: string)
    requires AllAllowed(names, picks)
    ensures Out(names, picks, x) ==> x in names
  {
    if picks != [] {
      assert Allowed(names, picks[|picks| - 1]);
      OutIsNamed(names, picks[..|picks| - 1], x);
    }
  }

  /** The rounds a state has seen that started with 2^k groups. */
  predicate Shrinking(rounds: seq<seq<Group>>, k: nat) {
    |rounds| <= k + 1 && forall i :: 0 <= i < |rounds| ==> |rounds[i]| == Pow2(k - i)
  }

  /** After k decided rounds of 2^k groups one group is left, and it is a real one; every other
      name is out. */
  lemma {:induction false} OneRemains(s: State, k: nat, all: iset<string>, plays: seq<seq<Pick>>)
    requires Ready(s, k, all) && AllDecided(s, plays) && |plays| == k
    requires k == 0 ==> FREE !in Names(s.winners)
    ensures var t := PlayAll(s, plays); Ready(t, 0, all) && FREE !in Names(t.winners)
    decreases k
  {
    if k > 0 {
      hide Ready, Complete, AllAllowed, PlayRound;
      RoundHalves(s, k, all, plays[0]);
      OneRemains(PlayRound(s, plays[0]), k - 1, all, plays[1..]);
    }
  }

  /** Round i of a tournament of 2^k groups has 2^(k - i) of them. */
  lemma {:induction false} RoundsShrink(s: State, k: nat, total: nat, all: iset<string>, plays: seq<seq<Pick>>)
    requires k <= total && Ready(s, k, all) && AllDecided(s, plays) && |plays| == k
    requires Shrinking(s.rounds, total) && |s.rounds| == total - k + 1
    ensures var t := PlayAll(s, plays); Shrinking(t.rounds, total) && |t.rounds| == total + 1
    decreases k
  {
    if k > 0 {
      RoundHalves(s, k, all, plays[0]);
      OneRoundShrinks(s, k, total, all, plays[0]);
      hide Ready, Complete, AllAllowed, PlayRound, Shrinking;
      RoundsShrink(PlayRound(s, plays[0]), k - 1, total, all, plays[1..]);
    }
  }

  lemma OneRoundShrinks(s: State, k: nat, total: nat, all: iset<string>, picks: seq<Pick>)
    requires 1 <= k <= total && Ready(s, k, all) && AllAllowed(Names(Current(s)), picks) && Complete(Names(Current(s)), picks)
    requires Shrinking(s.rounds, total) && |s.rounds| == total - k + 1
    ensures var u := PlayRound(s, picks); Shrinking(u.rounds, total) && |u.rounds| == |s.rounds| + 1
  {
    var u := PlayRound(s, picks);
    RoundHalves(s, k, all, picks);
    var n := |s.rounds|;
    assert |u.winners| == Pow2(k - 1) && |Names(Current(s))| == Pow2(k);
    assert u.rounds[n] == u.winners && |u.rounds[n - 1]| == |Names(u.rounds[n - 1])|;
    hide Ready, Complete, AllAllowed, PlayRound, Pow2, Names, Current;
    forall i | 0 <= i < |u.rounds| ensures |u.rounds[i]| == Pow2(total - i) {
      if i < n - 1 {
        assert u.rounds[i] == u.rounds[..n - 1][i] == s.rounds[..n - 1][i] == s.rounds[i];
      }
    }
  }

  // ------------------------------------------------------------------ setting up

  /** isPowerOfTwo, and _isPowerOf2 of the standard library. */
  predicate IsPowerOfTwo(n: int) {
    n > 0 && And(n, n - 1) == 0
  }

  lemma {:induction false} IsPowerOfTwoIff(n: nat)
    ensures IsPowerOfTwo(n) <==> exists k: nat :: Pow2(k) == n
  {
    if n == 0 {
    } else if n == 1 {
      assert Pow2(0) == 1;
    } else if n % 2 == 1 {
      AndOfOdd(n);
      forall k: nat ensures Pow2(k) != n { }
    } else {
      IsPowerOfTwoIff(n / 2);
      HalvePower(n);
      if k: nat :| Pow2(k) == n / 2 { assert Pow2(k + 1) == n; }
      if k: nat :| Pow2(k) == n { assert Pow2(k - 1) == n / 2; }
    }
  }

  lemma AndOfOdd(n: nat)
    requires n % 2 == 1 && n > 1
    ensures And(n, n - 1) != 0
  {
    AndSelf(n / 2);
    assert (n - 1) / 2 == n / 2;
  }

  lemma {:induction false} AndSelf(n: nat)
    ensures And(n, n) == n
  {
    if n > 0 { AndSelf(n / 2); }
  }

  lemma HalvePower(n: nat)
    requires n % 2 == 0 && n >= 2
    ensures And(n, n - 1) == 2 * And(n / 2, n / 2 - 1)
  {
    assert (n - 1) / 2 == n / 2 - 1;
  }

  /** The least k with 2^k at least n. */
  function Log(n: nat): (k: nat)
    ensures n <= Pow2(k) && (k > 0 ==> Pow2(k - 1) < n)
  {
    if n <= 1 then 0 else Log((n + 1) / 2) + 1
  }

  function Free(seed: int): Group {
    Group(FREE, seed, false)
  }

  /** The groups of a tournament once FREE ones fill it up. */
  function Padded(groups: seq<Group>): (r: seq<Group>)
    requires groups != []
    ensures |r| == Pow2(Log(|groups|)) && groups <= r
    ensures forall i :: |groups| <= i < |r| ==> r[i] == Free(groups[|groups| - 1].seed + 1)
  {
    groups + seq(Pow2(Log(|groups|)) - |groups|, i => Free(groups[|groups| - 1].seed + 1))
  }

  /** What generate makes of a new tournament with these groups. */
  function Generated(groups: seq<Group>): State
    requires groups != []
  {
    State(Padded(groups), Padded(groups), [], [Padded(groups)])
  }

  /** At least two groups of different names, none of them called FREE. */
  predicate Entry(groups: seq<Group>) {
    |groups| >= 2 && NoRepeat(Names(groups)) && FREE !in Names(groups)
  }

  function NamesSet(groups: seq<Group>): iset<string> {
    iset x: string | x in Names(groups)
  }

  /** Padding fills up to the least power of two and pairs every FREE with a real group. */
  lemma PaddingPairs(groups: seq<Group>)
    requires Entry(groups)
    ensures var n, p := |groups|, |Padded(groups)|;
      p / 2 < n <= p && p == Pow2(Log(n)) && p >= 2 &&
      RoundNames(Names(Padded(groups))) &&
      forall i :: 0 <= i < p / 2 ==> Padded(groups)[i].name != FREE
  {
    var names := Names(Padded(groups));
    assert Log(|groups|) >= 1;
    forall i | 0 <= i < |groups| ensures names[i] == Names(groups)[i] && names[i] != FREE { assert Names(groups)[i] in Names(groups); }
  }

  /** The start of the first round. */
  lemma GeneratedIsReady(groups: seq<Group>)
    requires Entry(groups)
    ensures var s := Generated(groups); Ready(s, Log(|groups|), NamesSet(s.groups)) && Shrinking(s.rounds, Log(|groups|))
  {
    PaddingPairs(groups);
    hide RoundNames, Padded, Pow2, Log, Entry;
    var padded := Padded(groups);
    StartIsReady(padded, Log(|groups|));
  }

  lemma StartIsReady(groups: seq<Group>, k: nat)
    requires RoundNames(Names(groups)) && |groups| == Pow2(k)
    ensures var s := State(groups, groups, [], [groups]); Ready(s, k, NamesSet(groups)) && Shrinking(s.rounds, k)
  {
    hide RoundNames, Pow2, Names;
    var s := State(groups, groups, [], [groups]);
    assert Current(s) == groups;
  }

  /** The whole tournament: decided in any order with any changes of mind, but never for FREE, it
      leaves one real group after as many rounds as generate_rounds says; the other names are
      out, and round i has twice as many groups as generate_matches gives it matches. */
  lemma Champion(groups: seq<Group>, plays: seq<seq<Pick>>)
    requires Entry(groups) && |plays| == Rounds(|Padded(groups)|) && AllDecided(Generated(groups), plays)
    ensures var t := PlayAll(Generated(groups), plays);
      |t.winners| == 1 && t.winners[0].name in Names(groups) &&
      (forall x: string :: Contains(t.losers, x) <==> x in Names(Padded(groups)) && x != t.winners[0].name) &&
      |t.rounds| == |plays| + 1 &&
      forall i :: 0 <= i < |plays| ==> |t.rounds[i]| == 2 * Matches(|plays|)[i]
  {
    var k := Log(|groups|);
    var s := Generated(groups);
    var all := NamesSet(s.groups);
    GeneratedIsReady(groups);
    RoundsOfPower(k);
    OneRemains(s, k, all, plays);
    RoundsShrink(s, k, k, all, plays);
    var t := PlayAll(s, plays);
    assert Names(t.winners)[0] in Names(t.winners);
    forall x: string ensures Contains(t.losers, x) <==> x in Names(Padded(groups)) && x != t.winners[0].name {
      assert x in all <==> x in Names(t.winners) || Contains(t.losers, x);
    }
    var name := t.winners[0].name;
    assert name in all;
    var i :| 0 <= i < |Padded(groups)| && Names(Padded(groups))[i] == name;
    assert i < |groups| && Names(groups)[i] == name;
  }

  // ------------------------------------------------------------------ counting rounds and matches

  /** How often a number can be halved before it is at most one. */
  function Rounds(g: int): nat {
    if g <= 1 then 0 else Rounds(g / 2) + 1
  }

  lemma {:induction false} RoundsOfPower(k: nat)
    ensures Rounds(Pow2(k)) == k
  {
    if k > 0 { RoundsOfPower(k - 1); }
  }

  /** The matches of each round of a tournament of r rounds. */
  function Matches(r: nat): (m: seq<nat>)
    ensures |m| == r && forall i :: 0 <= i < r ==> m[i] == Pow2(r - 1 - i)
  {
    seq(r, i requires 0 <= i < r => Pow2(r - 1 - i))
  }

  function Sum(m: seq<nat>): nat {
    if m == [] then 0 else m[0] + Sum(m[1..])
  }

  /** Every match but none of the champion ends one group's tournament. */
  lemma {:induction false} MatchesInAll(r: nat)
    ensures Sum(Matches(r)) == Pow2(r) - 1
  {
    if r > 0 {
      assert Matches(r)[1..] == Matches(r - 1);
      MatchesInAll(r - 1);
    }
  }

  lemma {:induction false} RoundsBounds(g: nat)
    requires g >= 1
    ensures Pow2(Rounds(g)) <= g < Pow2(Rounds(g) + 1)
  {
    if g > 1 { RoundsBounds(g / 2); }
  }

  /** generate_rounds. */
  method GenerateRounds(g: int) returns (rounds: nat)
    ensures g <= 0 ==> rounds == 0
    ensures g >= 1 ==> Pow2(rounds) <= g < Pow2(rounds + 1)
    ensures rounds == Rounds(g)
  {
    rounds := 0;
    var size := g;
    if size > 0 {
      while size > 1
        invariant size >= 1
        invariant rounds + Rounds(size) == Rounds(g)
      {
        size := size / 2;
        rounds := rounds + 1;
      }
      RoundsBounds(g);
    }
  }

  /** generate_matches. The power is computed in single precision, exactly, and must fit an Int. */
  method GenerateMatches(r: nat) returns (matchUps: seq<nat>)
    requires r <= 62
    ensures matchUps == Matches(r)
  {
    matchUps := [];
    var number := Pow2(r) / 2;
    for i := 0 to r
      invariant matchUps == Matches(r)[..i]
      invariant i < r ==> number == Pow2(r - 1 - i)
    {
      matchUps := matchUps + [number];
      number := number / 2;
    }
  }

  /** Which round is played with this many groups left, as make_roundsHost finds it. */
  method CurrentRound(count: nat, rounds: nat, matches: seq<nat>, was: nat) returns (round: nat)
    requires matches == Matches(rounds)
    ensures count == 1 && rounds > 0 ==> round == rounds
    ensures forall i :: 0 <= i < rounds && count == 2 * matches[i] ==> round == i + 1
  {
    round := was;
    if count == 1 { round := rounds; }
    for i := 0 to |matches|
      invariant forall j :: 0 <= j < i ==> count / 2 != matches[j]
      invariant count == 1 ==> round == rounds
    {
      if count / 2 == matches[i] {
        forall j | 0 <= j < rounds && count == 2 * matches[j] ensures j == i {
          Pow2Injective(rounds - 1 - i, rounds - 1 - j);
        }
        return i + 1;
      }
    }
  }

  lemma Pow2Strict(a: nat, b: nat)
    requires a < b
    ensures Pow2(a) < Pow2(b)
  {
    Pow2Monotone(a + 1, b);
  }

  lemma Pow2Injective(a: nat, b: nat)
    requires Pow2(a) == Pow2(b)
    ensures a == b
  {
    hide Pow2;
    if a < b { Pow2Strict(a, b); }
    if b < a { Pow2Strict(b, a); }
  }

  /** A Tournament and the steps its controller takes. */
  class Tournament {
    var groups: seq<Group>
    var winners: seq<Group>
    var losers: seq<Group>
    var rounds: seq<seq<Group>>

    function Value(): State
      reads this
    {
      State(groups, winners, losers, rounds)
    }

    constructor ()
      ensures Value() == State([], [], [], [])
    {
      groups, winners, losers, rounds := [], [], [], [];
    }

    method AddGroup(g: Group)
      modifies this
      ensures Value() == old(Value()).(groups := old(groups) + [g])
    {
      groups := groups + [g];
    }

    /** generate: the padding loop and the first round. */
    method Generate()
      requires groups != []
      modifies this
      ensures Value() == State(Padded(old(groups)), Padded(old(groups)), old(losers), old(rounds) + [Padded(old(groups))])
    {
      ghost var entered := groups;
      ghost var full := Pow2(Log(|entered|));
      var seed := groups[|groups| - 1].seed + 1;
      LeastPowerIsPower(|entered|);
      while !IsPowerOfTwo(|groups|)
        invariant |entered| <= |groups| <= full && groups == Padded(entered)[..|groups|]
        invariant losers == old(losers) && rounds == old(rounds)
        decreases full - |groups|
      {
        AddGroup(Free(seed));
      }
      IsPowerOfTwoIff(|groups|);
      ReachedLeastPower(|entered|, |groups|);
      assert groups == Padded(entered);
      winners := groups;
      rounds := rounds + [groups];
    }

    method MakeLoser(g: Group)
      modifies this
      ensures Value() == MadeLoser(old(Value()), g)
    {
      winners := Without(winners, g.name);
      if !Contains(losers, g.name) { losers := losers + [g]; }
    }

    method MakeWinner(g: Group)
      modifies this
      ensures Value() == MadeWinner(old(Value()), g)
    {
      losers := Without(losers, g.name);
      if !Contains(winners, g.name) { winners := winners + [g]; }
    }

    method UpdateWinner(winner: Group, loser: Group, round: nat)
      requires 1 <= round <= |rounds|
      modifies this
      ensures Value() == Picked(old(Value()), winner, loser, round)
    {
      rounds := rounds[round - 1 := WithStatus(rounds[round - 1], winner.name, loser.name)];
      MakeLoser(loser);
      MakeWinner(winner);
    }

    method NextRound()
      modifies this
      ensures Value() == Advanced(old(Value()))
    {
      rounds := rounds + [winners];
    }
  }

  lemma LeastPowerIsPower(n: nat)
    ensures IsPowerOfTwo(Pow2(Log(n)))
  {
    IsPowerOfTwoIff(Pow2(Log(n)));
  }

  /** Between a number and the least power of two above it there is no other power of two. */
  lemma ReachedLeastPower(n: nat, p: nat)
    requires 1 <= n <= p <= Pow2(Log(n)) && exists k: nat :: Pow2(k) == p
    ensures p == Pow2(Log(n))
  {
    var k: nat :| Pow2(k) == p;
    if k < Log(n) { Pow2Monotone(k, Log(n) - 1); }
    if k > Log(n) { Pow2Monotone(Log(n), k); }
  }
}
