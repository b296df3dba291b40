/** Voice-channel time tracking (cogs/voiceChat.py): an in-memory map of
    join times, and on leaving, the minutes spent and one XP per whole
    half-minute (two per minute) credited to the member's UserActivity row. `now` is the
    `time.time()` reading in seconds; `stamp` is the `datetime.now()`
    written to LastVCTimestamp, a separate clock reading. */
module Voice {
  import opened Basics
  import opened Store

  /** Python's `int(x)` on a float: truncation toward zero. */
  function Trunc(x: real): (n: int)
    ensures x >= 0.0 ==> n as real <= x < n as real + 1.0
    ensures x < 0.0 ==> n as real - 1.0 < x <= n as real
  {
    if x >= 0.0 then x.Floor else -((-x).Floor)
  }

  /** XP earned for a stay: `int(time_spent * 2)`. */
  function VcXp(minutes: real): int {
    Trunc(minutes * 2.0)
  }

  /** `update_vc_time`: add the minutes and their XP to an existing row and
      stamp it; with no row, insert one holding just those (the other
      columns take their defaults). The inserted row's LastMessageTime
      takes the column default `CURRENT_TIMESTAMP`, a UTC reading, while
      LastVCTimestamp gets `datetime.now()`, a local one; both are `stamp`
      here, so the two clocks are merged into one. */
  function UpdateVcTime(db: Db, m: MemberId, minutes: real, stamp: int): (r: Db)
    ensures m in r.activity
    ensures r == db.(activity := r.activity)
    ensures r.activity == db.activity[m := r.activity[m]]
    ensures m in db.activity ==>
              var a := db.activity[m];
              r.activity[m] == a.(minutesInVc := a.minutesInVc + minutes, xp := a.xp + VcXp(minutes), lastVcTime := stamp)
    ensures m !in db.activity ==>
              r.activity[m] == FreshActivity(stamp).(minutesInVc := minutes, xp := VcXp(minutes))
  {
    var earned := VcXp(minutes);
    if m in db.activity then
      var a := db.activity[m];
      db.(activity := db.activity[m := a.(minutesInVc := a.minutesInVc + minutes, xp := a.xp + earned, lastVcTime := stamp)])
    else
      db.(activity := db.activity[m := FreshActivity(stamp).(minutesInVc := minutes, xp := earned)])
  }

  /** A stay of `t` minutes, `t >= 0`, earns the whole part of `2t`: at most
      `2t` and more than `2t - 1`. */
  lemma VcXpBounds(minutes: real)
    requires minutes >= 0.0
    ensures VcXp(minutes) >= 0
    ensures VcXp(minutes) as real <= 2.0 * minutes < VcXp(minutes) as real + 1.0
  {
  }

  /** Splitting a stay in two never earns more than the whole stay and loses
      at most one XP to the two truncations; e.g. two quarter-minute stays
      earn nothing while one half-minute stay earns 1. */
  lemma SplitStayXp(a: real, b: real)
    requires a >= 0.0 && b >= 0.0
    ensures VcXp(a) + VcXp(b) <= VcXp(a + b) <= VcXp(a) + VcXp(b) + 1
    ensures VcXp(0.25) + VcXp(0.25) == 0 && VcXp(0.5) == 1
  {
    VcXpBounds(a);
    VcXpBounds(b);
    VcXpBounds(a + b);
  }

  /** The listener's state: the join-time map and the database. */
  datatype VoiceState = VoiceState(joined: map<MemberId, real>, db: Db)

  /** `on_voice_state_update`. `wasIn` and `isIn` say whether the member
      was in a voice channel before and after the update. Joining records
      the time, replacing any earlier record; leaving with a record removes
      it and credits the minutes since; anything else (switching channels,
      leaving with no record, a mute) changes nothing. */
  function OnVoiceStateUpdate(s: VoiceState, m: MemberId, wasIn: bool, isIn: bool, now: real, stamp: int): (r: VoiceState)
    ensures !wasIn && isIn ==> r == s.(joined := s.joined[m := now])
    ensures wasIn && !isIn && m in s.joined ==>
              r == VoiceState(s.joined - {m}, UpdateVcTime(s.db, m, (now - s.joined[m]) / 60.0, stamp))
    ensures wasIn == isIn || (wasIn && m !in s.joined) ==> r == s
  {
    if !wasIn && isIn then
      s.(joined := s.joined[m := now])
    else if wasIn && !isIn then
      if m in s.joined then
        VoiceState(s.joined - {m}, UpdateVcTime(s.db, m, (now - s.joined[m]) / 60.0, stamp))
      else s
    else s
  }

  /** A join followed by a leave, with the clock moving forward, credits the
      elapsed minutes and their XP to the member's row, forgets the join,
      and touches no other member's tracking or activity. */
  lemma JoinThenLeave(s: VoiceState, m: MemberId, joinAt: real, leaveAt: real, stamp: int)
    requires joinAt <= leaveAt
    requires m in s.db.activity
    ensures var r := OnVoiceStateUpdate(OnVoiceStateUpdate(s, m, false, true, joinAt, stamp), m, true, false, leaveAt, stamp);
            var minutes := (leaveAt - joinAt) / 60.0;
            && r.joined == s.joined - {m}
            && r.db.activity[m].minutesInVc == s.db.activity[m].minutesInVc + minutes
            && r.db.activity[m].xp == s.db.activity[m].xp + VcXp(minutes)
            && 0 <= VcXp(minutes) && VcXp(minutes) as real <= 2.0 * minutes
            && (forall k :: k != m && k in s.db.activity ==> r.db.activity[k] == s.db.activity[k])
            && r.db.money == s.db.money
  {
    var s1 := OnVoiceStateUpdate(s, m, false, true, joinAt, stamp);
    assert s1.joined - {m} == s.joined - {m};
    VcXpBounds((leaveAt - joinAt) / 60.0);
  }
}
