/** The inactivity counter of a device's `writeLoop`: one tick a second after the loop starts, a
    heartbeat every five, and a reset of the counter with every heartbeat. */
module Inactivity {
  import opened ByteStrings
  import DbTime

  const SECOND := DbTime.SECOND
  const HEARTBEAT := 5 * SECOND

  /** The silence after which the counter starts: 7.5 s. */
  const PATIENCE := 7_500_000_000

  /** `dev.active` at some moment: the last of the times a message was heard, which come in any
      order here, and otherwise the time the device connected. Times are in nanoseconds from the
      start of the loop. */
  function LastHeard(connected: int, heard: seq<int>, now: int): (t: int)
    ensures t >= connected
    ensures t == connected || (t in heard && t <= now)
    ensures forall h :: h in heard && h <= now ==> h <= t
  {
    if heard == [] then connected
    else
      var rest, h := LastHeard(connected, heard[1..], now), heard[0];
      assert forall k :: k in heard ==> k == h || k in heard[1..];
      if rest < h <= now then h else rest
  }

  function Silence(connected: int, heard: seq<int>, tick: nat): int {
    tick * SECOND - LastHeard(connected, heard, tick * SECOND)
  }

  /** What a tick stops, when `named` is the first tick to see a registered id: before that, a
      connection silent for too long; from then on a device that, at a heartbeat, was silent for
      four ticks more than that. */
  predicate Stops(named: nat, connected: int, heard: seq<int>, tick: nat) {
    if tick < named then Silence(connected, heard, tick) > PATIENCE
    else tick % 5 == 0 && Silence(connected, heard, tick) > PATIENCE + 4 * SECOND
  }

  ghost predicate FirstStop(named: nat, connected: int, heard: seq<int>, tick: nat) {
    && tick > 0 && Stops(named, connected, heard, tick)
    && forall j :: 0 < j < tick ==> !Stops(named, connected, heard, j)
  }

  ghost predicate AllSilent(connected: int, heard: seq<int>, from: nat, to: nat) {
    forall j :: from < j <= to ==> Silence(connected, heard, j) > PATIENCE
  }

  /** Five silent ticks in a row are one long silence: between the first and the last of them
      every moment is within the patience of some tick. */
  lemma FiveTicksAreOneSilence(connected: int, heard: seq<int>, tick: nat)
    requires connected <= 0 && tick >= 5
    ensures AllSilent(connected, heard, tick - 5, tick) <==> Silence(connected, heard, tick) > PATIENCE + 4 * SECOND
  {
    var last := LastHeard(connected, heard, tick * SECOND);
    var j := (last + PATIENCE) / SECOND;
    if tick - 5 < j <= tick {
      assert Silence(connected, heard, j) <= PATIENCE;
    }
    if Silence(connected, heard, tick) > PATIENCE + 4 * SECOND {
      forall i | tick - 5 < i <= tick ensures Silence(connected, heard, i) > PATIENCE {
        assert LastHeard(connected, heard, i * SECOND) <= last;
      }
    }
  }

  /** The same in terms of the `phase` within the current heartbeat's five ticks. */
  lemma StopsExactly(named: nat, connected: int, heard: seq<int>, tick: nat, phase: nat)
    requires connected <= 0 && 1 <= phase <= 5 && phase <= tick && (tick - phase) % 5 == 0
    ensures Stops(named, connected, heard, tick)
            <==> if tick < named then Silence(connected, heard, tick) > PATIENCE
                 else phase == 5 && AllSilent(connected, heard, tick - 5, tick)
  {
    assert tick % 5 == 0 <==> phase == 5;
    if phase == 5 {
      FiveTicksAreOneSilence(connected, heard, tick);
    }
  }

  /** Runs the loop for some ticks, of which those before `named` find the id still empty; the
      device's reader sets `dev.active` and `dev.id` meanwhile, and writes succeed. `beats` are
      the ticks with a heartbeat. */
  method WriteLoop(named: nat, connected: int, heard: seq<int>, ticks: nat) returns (stopped: Option<nat>, beats: seq<nat>)
    requires connected <= 0
    ensures match stopped
            case Some(k) => k <= ticks && FirstStop(named, connected, heard, k)
            case None => forall k :: 0 < k <= ticks ==> !Stops(named, connected, heard, k)
    ensures |beats| == (if stopped.Some? then stopped.value - 1 else ticks) / 5
    ensures forall i :: 0 <= i < |beats| ==> beats[i] == 5 * (i + 1)
  {
    beats := [];
    var tick, ninactive, lastHeartbeat := 0, 0, 0;
    ghost var phase := 0;
    while tick < ticks
      invariant tick == 5 * |beats| + phase <= ticks && 0 <= phase < 5
      invariant lastHeartbeat == 5 * |beats| * SECOND
      invariant 0 <= ninactive <= phase
      invariant ninactive == phase <==> AllSilent(connected, heard, tick - phase, tick)
      invariant forall k :: 0 < k <= tick ==> !Stops(named, connected, heard, k)
      invariant forall i :: 0 <= i < |beats| ==> beats[i] == 5 * (i + 1)
    {
      tick, phase := tick + 1, phase + 1;
      var now := tick * SECOND;
      StopsExactly(named, connected, heard, tick, phase);
      if now - LastHeard(connected, heard, now) > HEARTBEAT * 3 / 2 {
        if tick < named || ninactive > 3 {
          return Some(tick), beats;
        }
        ninactive := ninactive + 1;
      }
      if now - lastHeartbeat > HEARTBEAT - 1 {
        lastHeartbeat, ninactive := now, 0;
        beats, phase := beats + [tick], 0;
      }
    }
    stopped := None;
  }

  /** A device that falls silent at time `a`, having registered by then, is dropped at the one
      heartbeat tick in (a + 11.5 s, a + 16.5 s], whatever the phase of `a`. */
  lemma SilentDeviceIsDropped(named: nat, connected: int, heard: seq<int>, a: int, tick: nat)
    requires connected <= 0 <= a && a in heard && forall h :: h in heard ==> h <= a
    requires (named - 1) * SECOND <= a
    requires forall j :: 0 < j && j * SECOND <= a ==> !Stops(named, connected, heard, j)
    ensures FirstStop(named, connected, heard, tick)
            <==> tick % 5 == 0 && a + 11_500_000_000 < tick * 1_000_000_000 <= a + 16_500_000_000
  {
    forall j: nat | j * SECOND > a ensures Silence(connected, heard, j) == j * SECOND - a && j >= named {
    }
    if tick >= 5 {
      assert Stops(named, connected, heard, tick - 5) ==> !FirstStop(named, connected, heard, tick) || tick == 5;
    }
  }

  /** A device heard at least every 11.5 s, or at least every 7.5 s while it has not registered, is
      never dropped for inactivity. */
  lemma AudibleDeviceIsKept(named: nat, connected: int, heard: seq<int>, gap: int, tick: nat)
    requires connected <= 0 && 0 < tick
    requires gap <= if tick < named then 7_500_000_000 else 11_500_000_000
    requires var times := [connected] + heard;
             && (forall i :: 0 <= i < |heard| ==> times[i] <= times[i + 1] <= times[i] + gap)
             && tick * SECOND <= times[|heard|] + gap
    ensures !Stops(named, connected, heard, tick)
  {
    var times, now := [connected] + heard, tick * SECOND;
    Covered(times, gap, now);
    var i :| 0 <= i < |times| && times[i] <= now <= times[i] + gap;
    assert i > 0 ==> times[i] == heard[i - 1] && times[i] in heard;
    assert LastHeard(connected, heard, now) >= times[i];
  }

  lemma {:induction false} Covered(times: seq<int>, gap: int, now: int)
    requires times != [] && times[0] <= now <= times[|times| - 1] + gap
    requires forall i :: 0 <= i < |times| - 1 ==> times[i] <= times[i + 1] <= times[i] + gap
    ensures exists i :: 0 <= i < |times| && times[i] <= now <= times[i] + gap
  {
    if times[|times| - 1] <= now {
    } else {
      var front := times[..|times| - 1];
      Covered(front, gap, now);
      var i :| 0 <= i < |front| && front[i] <= now <= front[i] + gap;
      assert times[i] == front[i];
    }
  }
}
