/** The live monitor card: a Start/Stop button flipping two flags, and, while
    listening, a timer tick that may simulate one card tap and push it onto a
    newest-first buffer of at most ten entries. The timer itself is not
    modelled: each firing is one call of `Tick`, and the four `Math.random()`
    draws of a firing, `Date.now()` and `new Date().toISOString()` are its
    parameters. */
module RfidMonitor {
  import opened Js
  import RfidLog

  /** The most entries the buffer shows. */
  const Capacity: nat := 10

  datatype LiveLog = LiveLog(
    id: nat,
    cardUID: string,
    studentName: Option<string>,
    timestamp: string,
    access: RfidLog.Access,
    reason: string)

  const UnknownCard: string := "RFID999"

  /** The cards a simulated tap picks from. */
  const MockCards: seq<string> := ["RFID001", "RFID002", "RFID003", UnknownCard]

  /** `Math.random() > 0.7`: whether this firing simulates a tap. */
  predicate TapHappens(fire: real)
  {
    fire > 0.7
  }

  /** `mockCards[Math.floor(Math.random() * mockCards.length)]`. */
  function PickCard(cardPick: real): (card: string)
    requires 0.0 <= cardPick < 1.0
    ensures card in MockCards
    ensures card == MockCards[(cardPick * 4.0).Floor]
  {
    MockCards[(cardPick * (|MockCards| as real)).Floor]
  }

  /** The log of one simulated tap. */
  function NewLog(cardPick: real, accessPick: real, reasonPick: real, now: nat, isoNow: string): (l: LiveLog)
    requires 0.0 <= cardPick < 1.0
    ensures l.id == now && l.timestamp == isoNow
    ensures l.cardUID in MockCards
    ensures l.studentName.None? <==> l.cardUID == UnknownCard
    ensures l.studentName.Some? ==> l.studentName.value == "Student Name"
    ensures l.access == RfidLog.Allowed <==> accessPick > 0.3
    ensures l.reason == (if reasonPick > 0.5 then RfidLog.ValidReason else RfidLog.UnpaidReason)
  {
    var card := PickCard(cardPick);
    LiveLog(
      now,
      card,
      if card == UnknownCard then None else Some("Student Name"),
      isoNow,
      if accessPick > 0.3 then RfidLog.Allowed else RfidLog.Denied,
      if reasonPick > 0.5 then RfidLog.ValidReason else RfidLog.UnpaidReason)
  }

  /** `prev => [newLog, ...prev.slice(0, 9)]`. */
  function Insert(prev: seq<LiveLog>, l: LiveLog): (r: seq<LiveLog>)
    ensures |r| <= Capacity
    ensures |r| == 1 + Min(Capacity - 1, |prev|)
    ensures r[0] == l
    ensures r[1..] == prev[..Min(Capacity - 1, |prev|)]
  {
    [l] + Slice(prev, 0, Capacity - 1)
  }

  /** The buffer after the taps `logs`, oldest tap first, were pushed one by one. */
  function InsertAll(buf: seq<LiveLog>, logs: seq<LiveLog>): seq<LiveLog>
  {
    if logs == [] then buf
    else Insert(InsertAll(buf, logs[..|logs| - 1]), logs[|logs| - 1])
  }

  function Reverse<T>(s: seq<T>): (r: seq<T>)
    ensures |r| == |s|
    ensures forall i :: 0 <= i < |s| ==> r[i] == s[|s| - 1 - i]
  {
    if s == [] then [] else [s[|s| - 1]] + Reverse(s[..|s| - 1])
  }

  /** Whatever the taps, the buffer holds the newest ten entries, newest first:
      the taps in reverse order followed by the earlier buffer, cut to ten. */
  lemma {:induction false} InsertAllKeepsNewest(buf: seq<LiveLog>, logs: seq<LiveLog>)
    requires |buf| <= Capacity
    ensures InsertAll(buf, logs) == (Reverse(logs) + buf)[..Min(Capacity, |logs| + |buf|)]
  {
    if logs == [] {
      assert Reverse(logs) + buf == buf;
    } else {
      var init, last := logs[..|logs| - 1], logs[|logs| - 1];
      var whole := Reverse(init) + buf;
      var n := Min(Capacity - 1, |init| + |buf|);
      assert InsertAll(buf, logs) == [last] + whole[..n] by {
        InsertAllKeepsNewest(buf, init);
        var x := InsertAll(buf, init);
        assert x[..Min(Capacity - 1, |x|)] == whole[..n];
      }
      assert Reverse(logs) + buf == [last] + whole;
      ConsTake(last, whole, n);
    }
  }

  lemma ConsTake<T>(a: T, w: seq<T>, n: nat)
    requires n <= |w|
    ensures [a] + w[..n] == ([a] + w)[..n + 1]
  {
  }

  /** `log.studentName || 'Unknown Card'`: an absent or empty name falls back. */
  function DisplayName(l: LiveLog): (name: string)
    ensures name == "Unknown Card" || (l.studentName.Some? && name == l.studentName.value)
    ensures name != "Unknown Card" ==> l.studentName.Some?
    ensures l.studentName.Some? && l.studentName.value != "" ==> name == l.studentName.value
  {
    match l.studentName
    case Some(n) => if n != "" then n else "Unknown Card"
    case None => "Unknown Card"
  }

  /** A simulated tap shows "Unknown Card" exactly for the unknown card. */
  lemma DisplayNameOfNewLog(cardPick: real, accessPick: real, reasonPick: real, now: nat, isoNow: string)
    requires 0.0 <= cardPick < 1.0
    ensures var l := NewLog(cardPick, accessPick, reasonPick, now, isoNow);
      DisplayName(l) == (if l.cardUID == UnknownCard then "Unknown Card" else "Student Name")
  {
  }

  /** The component's state. */
  class Monitor {
    var isConnected: bool
    var isListening: bool
    var liveLogs: seq<LiveLog>

    /** The buffer is bounded and the two flags move together. */
    ghost predicate Valid()
      reads this
    {
      |liveLogs| <= Capacity && isListening == isConnected
    }

    constructor ()
      ensures Valid()
      ensures !isConnected && !isListening && liveLogs == []
    {
      isConnected := false;
      isListening := false;
      liveLogs := [];
    }

    /** `toggleMonitoring`: flips both flags; stopping keeps the buffer. */
    method ToggleMonitoring()
      requires Valid()
      modifies this
      ensures Valid()
      ensures isListening == !old(isListening) && isConnected == !old(isConnected)
      ensures liveLogs == old(liveLogs)
    {
      isListening := !isListening;
      isConnected := !isConnected;
    }

    /** One firing of the interval. It only runs while listening, and then
        pushes exactly one new log when the tap draw exceeds 0.7. */
    method Tick(fire: real, cardPick: real, accessPick: real, reasonPick: real, now: nat, isoNow: string)
      requires Valid()
      requires 0.0 <= cardPick < 1.0
      modifies this
      ensures Valid()
      ensures isListening == old(isListening) && isConnected == old(isConnected)
      ensures old(isListening) && TapHappens(fire) ==>
        liveLogs == Insert(old(liveLogs), NewLog(cardPick, accessPick, reasonPick, now, isoNow))
      ensures !(old(isListening) && TapHappens(fire)) ==> liveLogs == old(liveLogs)
    {
      if isListening && TapHappens(fire) {
        var newLog := NewLog(cardPick, accessPick, reasonPick, now, isoNow);
        liveLogs := Insert(liveLogs, newLog);
      }
    }
  }
}
