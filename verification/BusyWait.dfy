/**
 `sendCommand` of firmware/send.c: the older transmitter, which drives SENDER from a busy
 loop on timer 1. A marker flips its status variable instead of setting a flag.
 */
module BusyWait {
  import opened Transmit

  const FACTOR := 103

  /** What the loop does with the rest of the packet when `status` is the last level. */
  function CommandPulses(s: seq<nat>, status: bool): seq<Pulse> {
    if s == [] then []
    else if s[0] == 1 then CommandPulses(s[1..], !status)
    else [Pulse(!status, s[0])] + CommandPulses(s[1..], !status)
  }

  /** Every pulse is preceded by no marker or by an odd number of them; `m` were seen already. */
  predicate OddMarkers(s: seq<nat>, m: nat) {
    s == [] ||
    if s[0] == 1 then OddMarkers(s[1..], m + 1)
    else (m == 0 || m % 2 == 1) && OddMarkers(s[1..], 0)
  }

  /** The levels driven, with the number of timer counts until each overflow. */
  method SendCommand(sendPacket: seq<nat>) returns (driven: seq<Pulse>, overflows: seq<nat>, sender: bool)
    requires forall i :: 0 <= i < |sendPacket| ==> 0 < sendPacket[i] < 256
    ensures driven == CommandPulses(sendPacket, false) && !sender
    ensures |overflows| == |driven|
    ensures forall i :: 0 <= i < |driven| ==> overflows[i] + driven[i].time * 103 + 1 == 0x1_0000
  {
    var status := false;
    driven, overflows, sender := [], [], false;
    var j := 0;
    while j < |sendPacket|
      invariant 0 <= j <= |sendPacket| && |overflows| == |driven|
      invariant driven + CommandPulses(sendPacket[j..], status) == CommandPulses(sendPacket, false)
      invariant forall i :: 0 <= i < |driven| ==> overflows[i] + driven[i].time * FACTOR + 1 == 0x1_0000
    {
      assert sendPacket[j..][1..] == sendPacket[j + 1..];
      if sendPacket[j] == 1 {
        status := !status;
      } else {
        var nextTimer: nat := 0xFFFF - sendPacket[j] * FACTOR;
        status := !status;
        sender := status;
        driven, overflows := driven + [Pulse(sender, sendPacket[j])], overflows + [nextTimer];
      }
      j := j + 1;
    }
    sender := false;
    assert sendPacket[j..] == [];
  }

  lemma {:induction false} SameRest(s: seq<nat>, level: bool, m: nat)
    ensures CommandPulses(s, if m % 2 == 1 then !level else level) == Intended(s, level, m > 0) <==> OddMarkers(s, m)
  {
    if s != [] {
      if s[0] == 1 {
        SameRest(s[1..], level, m + 1);
      } else {
        var status := if m % 2 == 1 then !level else level;
        var l := if m > 0 then level else !level;
        SameRest(s[1..], l, 0);
        var driven, asked := CommandPulses(s, status), Intended(s, level, m > 0);
        assert driven[1..] == CommandPulses(s[1..], !status) && asked[1..] == Intended(s[1..], l, false);
      }
    }
  }

  lemma {:induction false} CommandCount(s: seq<nat>, status: bool, level: bool, marked: bool)
    ensures |CommandPulses(s, status)| == |Intended(s, level, marked)|
  {
    if s != [] {
      if s[0] == 1 {
        CommandCount(s[1..], !status, level, true);
      } else {
        CommandCount(s[1..], !status, if marked then level else !level, false);
      }
    }
  }

  /**
   The busy loop and `rfSend` drive the same levels for the same times exactly on the strings
   that do not begin with a marker and have no even group of markers before a pulse.
   */
  lemma {:induction false} SameAsSend(s: seq<nat>)
    requires s != []
    ensures CommandPulses(s, false) == IntendedBySend(s, false) <==> s[0] != 1 && OddMarkers(s, 0)
  {
    if s[0] == 1 {
      CommandCount(s, false, true, false);
      CommandCount(s[1..], true, true, false);
    } else {
      SameRest(s, false, 0);
    }
  }

  /** In particular on strings without leading and without adjacent markers. */
  lemma {:induction false} SingleMarkersAreOdd(s: seq<nat>, m: nat)
    requires m == 0 || (m == 1 && (s == [] || s[0] != 1))
    requires forall i :: 0 <= i < |s| - 1 ==> s[i] != 1 || s[i + 1] != 1
    ensures OddMarkers(s, m)
  {
    if s != [] {
      if s[0] == 1 {
        assert |s| > 1 ==> s[1] != 1;
        SingleMarkersAreOdd(s[1..], 1);
      } else {
        SingleMarkersAreOdd(s[1..], 0);
      }
    }
  }
}
