/**
 * Scoring and daily missions. Points are added by `AddPoints`, which also
 * raises the high score; a mission event advances every active mission of
 * that type that is not finished yet, and pays the mission's reward at the
 * moment its progress reaches the target.
 */
module Progression {

  // ---------------------------------------------------------------------------
  // Points and high score

  datatype Score = Score(points: int, highScore: int)

  /** Add `amount` points; the high score follows the points when they pass it. */
  function AddPoints(s: Score, amount: int): (r: Score)
    ensures r.points == s.points + amount
    ensures r.highScore >= r.points && r.highScore >= s.highScore
    ensures r.highScore == r.points || r.highScore == s.highScore
  {
    var points := s.points + amount;
    Score(points, if points > s.highScore then points else s.highScore)
  }

  // ---------------------------------------------------------------------------
  // Missions

  datatype MissionType = FoundationMove | RevealCard | KingMove | TableauMove | WinGame

  datatype Mission = Mission(
    id: string,
    title: string,
    description: string,
    target: int,
    progress: int,
    reward: int,
    kind: MissionType)

  /** The mission invariant: progress never passes the target. */
  predicate InBounds(m: Mission) {
    0 <= m.progress <= m.target
  }

  /** An event of type `t` finishes `m`: this is the event that pays the reward. */
  predicate Completes(m: Mission, t: MissionType) {
    m.kind == t && m.progress < m.target && m.progress + 1 == m.target
  }

  /** One mission's response to an event of type `t`. */
  function Advance(m: Mission, t: MissionType): (r: Mission)
    ensures r == m.(progress := r.progress)
    ensures m.progress <= r.progress <= m.progress + 1
    ensures m.kind == t && m.progress < m.target ==> r.progress == m.progress + 1
    ensures m.kind != t ==> r == m
    ensures m.progress >= m.target ==> r == m
    ensures InBounds(m) ==> InBounds(r)
    ensures Completes(m, t) <==> r.progress == m.target && r.progress != m.progress
  {
    if m.kind == t && m.progress < m.target then m.(progress := m.progress + 1) else m
  }

  /** The missions after an event of type `t`, in their original order. */
  function AdvanceAll(ms: seq<Mission>, t: MissionType): (r: seq<Mission>)
    ensures |r| == |ms|
    ensures forall i :: 0 <= i < |ms| ==> r[i] == Advance(ms[i], t)
  {
    seq(|ms|, i requires 0 <= i < |ms| => Advance(ms[i], t))
  }

  predicate AllInBounds(ms: seq<Mission>) {
    forall i :: 0 <= i < |ms| ==> InBounds(ms[i])
  }

  lemma AdvanceAllKeepsBounds(ms: seq<Mission>, t: MissionType)
    requires AllInBounds(ms)
    ensures AllInBounds(AdvanceAll(ms, t))
    ensures forall i :: 0 <= i < |ms| && ms[i].kind != t ==> AdvanceAll(ms, t)[i] == ms[i]
  {
  }

  /**
   * The score after an event of type `t`: the missions are visited in order
   * and each one the event completes adds its reward. With no negative reward
   * the points never fall, and the high score never does.
   */
  function Award(ms: seq<Mission>, t: MissionType, s: Score): (r: Score)
    ensures (forall k :: 0 <= k < |ms| ==> ms[k].reward >= 0) ==> r.points >= s.points
    ensures r.highScore >= s.highScore
  {
    if ms == [] then s
    else
      var before := Award(ms[..|ms| - 1], t, s);
      var m := ms[|ms| - 1];
      if Completes(m, t) then AddPoints(before, m.reward) else before
  }

  /** The reward an event of type `t` pays, summed over the missions it completes. */
  function RewardSum(ms: seq<Mission>, t: MissionType): int
  {
    if ms == [] then 0
    else (if Completes(ms[0], t) then ms[0].reward else 0) + RewardSum(ms[1..], t)
  }

  lemma {:induction false} RewardSumAppend(ms: seq<Mission>, m: Mission, t: MissionType)
    ensures RewardSum(ms + [m], t) == RewardSum(ms, t) + (if Completes(m, t) then m.reward else 0)
  {
    if ms != [] {
      assert (ms + [m])[1..] == ms[1..] + [m];
      RewardSumAppend(ms[1..], m, t);
    }
  }

  /**
   * An event raises the points by exactly the rewards of the missions it
   * completes, never lowers the high score, and leaves the high score at
   * least at the points when it was so before.
   */
  lemma {:induction false} AwardPaysCompletedRewards(ms: seq<Mission>, t: MissionType, s: Score)
    ensures Award(ms, t, s).points == s.points + RewardSum(ms, t)
    ensures Award(ms, t, s).highScore >= s.highScore
    ensures s.highScore >= s.points ==> Award(ms, t, s).highScore >= Award(ms, t, s).points
  {
    if ms != [] {
      var init := ms[..|ms| - 1];
      AwardPaysCompletedRewards(init, t, s);
      assert init + [ms[|ms| - 1]] == ms;
      RewardSumAppend(init, ms[|ms| - 1], t);
    }
  }

  /** Missions of other types pay nothing for an event. */
  lemma {:induction false} RewardSumOtherTypes(ms: seq<Mission>, t: MissionType)
    requires forall i :: 0 <= i < |ms| ==> ms[i].kind != t
    ensures RewardSum(ms, t) == 0
  {
    if ms != [] {
      RewardSumOtherTypes(ms[1..], t);
    }
  }

  // ---------------------------------------------------------------------------
  // A mission over a run of events: the reward is paid at most once

  function Run(m: Mission, events: seq<MissionType>): Mission
    decreases |events|
  {
    if events == [] then m else Run(Advance(m, events[0]), events[1..])
  }

  /** How many of the events pay `m`'s reward. */
  function Completions(m: Mission, events: seq<MissionType>): nat
    decreases |events|
  {
    if events == [] then 0
    else (if Completes(m, events[0]) then 1 else 0) + Completions(Advance(m, events[0]), events[1..])
  }

  lemma {:induction false} FinishedMissionStays(m: Mission, events: seq<MissionType>)
    requires m.progress >= m.target
    ensures Run(m, events) == m && Completions(m, events) == 0
    decreases |events|
  {
    if events != [] {
      FinishedMissionStays(m, events[1..]);
    }
  }

  /**
   * Whatever events follow, a mission within bounds pays its reward at most
   * once, and pays it exactly when it was unfinished and ends at its target.
   */
  lemma {:induction false} RewardPaidOnce(m: Mission, events: seq<MissionType>)
    requires InBounds(m)
    ensures InBounds(Run(m, events))
    ensures Completions(m, events) <= 1
    ensures Completions(m, events) == 1 <==> m.progress < m.target && Run(m, events).progress == m.target
    decreases |events|
  {
    if events != [] {
      var next := Advance(m, events[0]);
      if Completes(m, events[0]) {
        FinishedMissionStays(next, events[1..]);
      } else {
        RewardPaidOnce(next, events[1..]);
      }
    }
  }

  // ---------------------------------------------------------------------------
  // The mission catalog

  /** The five mission templates the daily missions are drawn from. */
  function Catalog(): (c: seq<Mission>)
    ensures |c| == 5
    ensures forall i :: 0 <= i < |c| ==> c[i].progress == 0 && c[i].target > 0 && c[i].reward > 0
    ensures forall i, j :: 0 <= i < j < |c| ==> c[i].kind != c[j].kind
  {
    [ Mission("foundation_cards", "Foundation Builder", "Move 10 cards to foundation piles", 10, 0, 50, FoundationMove),
      Mission("reveal_cards", "Card Revealer", "Reveal 15 face-down cards", 15, 0, 40, RevealCard),
      Mission("kings_moved", "King Placer", "Move 3 kings to empty tableau spots", 3, 0, 30, KingMove),
      Mission("tableau_moves", "Tableau Master", "Make 20 moves between tableau piles", 20, 0, 45, TableauMove),
      Mission("win_game", "Victory Seeker", "Win a game", 1, 0, 100, WinGame) ]
  }

  // ---------------------------------------------------------------------------
  // Days and timestamps

  /** A local calendar date as the game reads it: full year, month, day of month. */
  datatype Date = Date(year: int, month: int, day: int)

  function IsSameDay(a: Date, b: Date): (r: bool)
    ensures r <==> a == b
  {
    a.year == b.year && a.month == b.month && a.day == b.day
  }

  /** A day in milliseconds. */
  const DayMillis: int := 24 * 60 * 60 * 1000

  /** A saved game is discarded when it is more than a day old at load time. */
  predicate IsStale(now: int, timestamp: int) {
    now - timestamp > DayMillis
  }

  lemma StalenessWindow(now: int, timestamp: int, later: int)
    ensures timestamp <= now <= timestamp + DayMillis ==> !IsStale(now, timestamp)
    ensures IsStale(now, timestamp) && now <= later ==> IsStale(later, timestamp)
  {
  }
}
