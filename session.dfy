/**
 * The access-request session: the device waits for a card, publishes one
 * request carrying the card's formatted UID, then waits for the decision that
 * the MQTT callback buffers, pulses the door LED when the decision's `door`
 * field is "open", and starts over.
 */
module Session {
  import opened Wrappers
  import opened UidFormat
  import opened Messages

  /** The three states of the main loop. */
  datatype State = CardWait | CardTouch | ReceiveRfid

  /** A level written to the LED pin. */
  datatype Level = Low | High

  /** What the session has done: a request published, or a buffered decision consumed. */
  datatype Event = Published(topic: string, payload: string) | Consumed(door: Option<string>)

  /** The reader's UID buffer holds at most ten bytes. */
  const MaxUidSize := 10

  /** The callback's `(char)payload[i]` conversion, byte by byte. */
  function AsText(payload: seq<byte>): (s: string)
    ensures |s| == |payload|
    ensures forall i :: 0 <= i < |payload| ==> s[i] as int == payload[i]
  {
    if payload == [] then "" else AsText(payload[..|payload| - 1]) + [payload[|payload| - 1] as char]
  }

  /** Requests and decisions take turns, starting with a request. */
  ghost predicate Alternating(log: seq<Event>) {
    forall i :: 0 <= i < |log| ==> (log[i].Published? <==> i % 2 == 0)
  }

  /** Number of requests published in `log`. */
  ghost function Requests(log: seq<Event>): nat {
    if log == [] then 0
    else Requests(log[..|log| - 1]) + (if log[|log| - 1].Published? then 1 else 0)
  }

  /** Number of decisions consumed in `log`. */
  ghost function Decisions(log: seq<Event>): nat {
    if log == [] then 0
    else Decisions(log[..|log| - 1]) + (if log[|log| - 1].Consumed? then 1 else 0)
  }

  /** Number of consumed decisions in `log` that opened the door. */
  ghost function Granted(log: seq<Event>): (n: nat)
    ensures n <= Decisions(log)
  {
    if log == [] then 0
    else
      var e := log[|log| - 1];
      Granted(log[..|log| - 1]) + (if e.Consumed? && Grants(e.door) then 1 else 0)
  }

  /** The LED writes of `n` pulses: each one HIGH, then LOW. */
  ghost function PulseTrace(n: nat): (t: seq<Level>)
    ensures |t| == 2 * n
    ensures forall i :: 0 <= i < |t| ==> t[i] == if i % 2 == 0 then High else Low
  {
    if n == 0 then [] else PulseTrace(n - 1) + [High, Low]
  }

  /**
   * The outputs of a session so far: requests and decisions take turns, and
   * the LED was written LOW at start-up and then pulsed once per granted decision.
   */
  ghost predicate SessionTrace(log: seq<Event>, ledWrites: seq<Level>) {
    Alternating(log) && ledWrites == [Low] + PulseTrace(Granted(log))
  }

  /**
   * In an alternating log, requests outnumber decisions by one exactly when
   * the log has odd length, and never by more: at most one request is outstanding.
   */
  lemma {:induction false} AlternatingCounts(log: seq<Event>)
    requires Alternating(log)
    ensures Requests(log) == Decisions(log) + |log| % 2
  {
    if log != [] {
      var init := log[..|log| - 1];
      assert forall i :: 0 <= i < |init| ==> init[i] == log[i];
      AlternatingCounts(init);
    }
  }

  /** Between loop iterations the LED is always left off. */
  lemma TraceEndsLow(log: seq<Event>, ledWrites: seq<Level>)
    requires SessionTrace(log, ledWrites)
    ensures ledWrites[|ledWrites| - 1] == Low
  {
    var n := Granted(log);
    if n > 0 {
      assert ledWrites[|ledWrites| - 1] == PulseTrace(n)[2 * n - 1];
    }
  }

  /** Publishing after a decision (or at the start) keeps the turns and writes nothing to the LED. */
  lemma LogPublish(log: seq<Event>, ledWrites: seq<Level>, topic: string, payload: string)
    requires SessionTrace(log, ledWrites) && |log| % 2 == 0
    ensures SessionTrace(log + [Published(topic, payload)], ledWrites)
  {
    var l := log + [Published(topic, payload)];
    assert l[..|l| - 1] == log;
  }

  /** Consuming a decision after a request keeps the turns and pulses the LED once if it says "open". */
  lemma LogConsume(log: seq<Event>, ledWrites: seq<Level>, door: Option<string>)
    requires SessionTrace(log, ledWrites) && |log| % 2 == 1
    ensures SessionTrace(log + [Consumed(door)], ledWrites + if Grants(door) then [High, Low] else [])
  {
    var l := log + [Consumed(door)];
    assert l[..|l| - 1] == log;
    var n := Granted(log);
    assert PulseTrace(n + 1) == PulseTrace(n) + [High, Low];
  }

  class Controller {
    var state: State
    /** The UID the reader last read (the reader's `uid` structure). */
    var cardUid: seq<byte>
    /** The formatted UID of the current request (`rfid_in`). */
    var rfidIn: string
    /** The buffered inbound decision message, "" when none is pending. */
    var mqttMessage: string
    /** The `door` field of the last parsed inbound message (the `doc_sub` document). */
    var door: Option<string>
    /** JSON parsing of an inbound message down to its `door` string, None when absent or malformed. */
    const parseDoor: string -> Option<string>

    /** Requests published and decisions consumed, in order. */
    ghost var log: seq<Event>
    /** Every level written to the LED pin, in order. */
    ghost var ledWrites: seq<Level>

    ghost predicate Valid()
      reads this
    {
      && |cardUid| <= MaxUidSize
      && SessionTrace(log, ledWrites)
      && (state == ReceiveRfid <==> |log| % 2 == 1)
      && (state != ReceiveRfid ==> mqttMessage == "")
      && (mqttMessage != "" ==> door == parseDoor(mqttMessage))
    }

    /** The session part of `setup()`: start waiting for a card with the LED off. */
    constructor (parseDoor: string -> Option<string>)
      ensures Valid()
      ensures this.parseDoor == parseDoor
      ensures state == CardWait && cardUid == [] && rfidIn == "" && mqttMessage == "" && door == None
      ensures log == [] && ledWrites == [Low]
    {
      this.parseDoor := parseDoor;
      state := CardWait;
      cardUid := [];
      rfidIn := "";
      mqttMessage := "";
      door := None;
      log := [];
      ledWrites := [Low];
    }

    /**
     * `mqttCallback`: the buffer is overwritten by the latest payload and the
     * decision re-parsed from it, so the last message delivered wins. The MQTT
     * client delivers messages only while the loop waits for a decision.
     */
    method Callback(payload: seq<byte>)
      requires Valid() && state == ReceiveRfid
      modifies this`mqttMessage, this`door
      ensures Valid()
      ensures mqttMessage == AsText(payload) && door == parseDoor(mqttMessage)
    {
      mqttMessage := "";
      for i := 0 to |payload|
        invariant mqttMessage == AsText(payload[..i])
      {
        assert payload[..i + 1][..i] == payload[..i];
        mqttMessage := mqttMessage + [payload[i] as char];
      }
      assert payload[..|payload|] == payload;
      door := parseDoor(mqttMessage);
    }

    /** The CARD_WAIT branch: capture a newly presented card whose serial was read. */
    method WaitForCard(cardRead: bool, uid: seq<byte>)
      requires Valid() && state == CardWait && |uid| <= MaxUidSize
      modifies this`state, this`cardUid
      ensures Valid()
      ensures cardRead ==> state == CardTouch && cardUid == uid
      ensures !cardRead ==> state == CardWait && cardUid == old(cardUid)
    {
      if cardRead {
        cardUid := uid;
        state := CardTouch;
      }
    }

    /** The CARD_TOUCH branch: format the UID, publish one request, await the decision. */
    method SendRequest()
      requires Valid() && state == CardTouch
      modifies this`state, this`rfidIn, this`log
      ensures Valid()
      ensures state == ReceiveRfid
      ensures rfidIn == Dump(cardUid)
      ensures log == old(log) + [Published(RequestTopic, RequestPayload(Dump(cardUid)))]
      ensures |RequestPayload(rfidIn)| == 3 * |cardUid| + 11 < JsonBufferSize
    {
      rfidIn := DumpByteArray(cardUid);
      UidRequestFits(cardUid);
      var payload := RequestPayload(rfidIn);
      LogPublish(log, ledWrites, RequestTopic, payload);
      log := log + [Published(RequestTopic, payload)];
      state := ReceiveRfid;
    }

    /**
     * The RECEIVE_RFID branch: let the MQTT client deliver a message, then, if
     * one is buffered, pulse the LED when it says "open" and start over.
     */
    method AwaitDecision(inbound: Option<seq<byte>>)
      requires Valid() && state == ReceiveRfid
      modifies this`state, this`mqttMessage, this`door, this`log, this`ledWrites
      ensures Valid()
      ensures
        var message := if inbound.Some? then AsText(inbound.value) else old(mqttMessage);
        var decision := if inbound.Some? then parseDoor(message) else old(door);
        && door == decision && mqttMessage == ""
        && (if message == "" then
              state == ReceiveRfid && log == old(log) && ledWrites == old(ledWrites)
            else
              && state == CardWait
              && log == old(log) + [Consumed(decision)]
              && ledWrites == old(ledWrites) + (if Grants(decision) then [High, Low] else []))
    {
      if inbound.Some? {
        Callback(inbound.value);
      }
      if |mqttMessage| > 0 {
        LogConsume(log, ledWrites, door);
        if Grants(door) {
          ledWrites := ledWrites + [High];
          ledWrites := ledWrites + [Low];
        }
        log := log + [Consumed(door)];
        state := CardWait;
        mqttMessage := "";
      }
    }

    /**
     * One iteration of `loop()`. The environment supplies whether a new card
     * is present, whether its serial was read, the UID read, and the payload
     * (if any) that the MQTT client delivers while the loop waits for a decision.
     */
    method Step(cardPresent: bool, serialRead: bool, uid: seq<byte>, inbound: Option<seq<byte>>)
      requires Valid() && |uid| <= MaxUidSize
      modifies this
      ensures Valid()
      ensures Requests(log) == Decisions(log) + (if state == ReceiveRfid then 1 else 0)
      ensures |ledWrites| <= 1 + 2 * Decisions(log)
      ensures ledWrites[|ledWrites| - 1] == Low
      // waiting for a card: capture it, or change nothing at all
      ensures old(state) == CardWait && cardPresent && serialRead ==>
        && state == CardTouch && cardUid == uid
        && rfidIn == old(rfidIn) && mqttMessage == old(mqttMessage) && door == old(door)
        && log == old(log) && ledWrites == old(ledWrites)
      ensures old(state) == CardWait && !(cardPresent && serialRead) ==> unchanged(this)
      // card captured: publish exactly one request, then wait for the decision
      ensures old(state) == CardTouch ==>
        && state == ReceiveRfid
        && rfidIn == Dump(old(cardUid))
        && log == old(log) + [Published(RequestTopic, RequestPayload(Dump(old(cardUid))))]
        && |RequestPayload(rfidIn)| == 3 * |cardUid| + 11 < JsonBufferSize
        && cardUid == old(cardUid) && mqttMessage == old(mqttMessage) && door == old(door)
        && ledWrites == old(ledWrites)
      // waiting for the decision: nothing to do on an empty buffer, otherwise
      // consume it, pulse the LED once if it says "open", and start over
      ensures old(state) == ReceiveRfid ==>
        var message := if inbound.Some? then AsText(inbound.value) else old(mqttMessage);
        var decision := if inbound.Some? then parseDoor(message) else old(door);
        && cardUid == old(cardUid) && rfidIn == old(rfidIn)
        && door == decision && mqttMessage == ""
        && (if message == "" then
              state == ReceiveRfid && log == old(log) && ledWrites == old(ledWrites)
            else
              && state == CardWait
              && log == old(log) + [Consumed(decision)]
              && ledWrites == old(ledWrites) + (if Grants(decision) then [High, Low] else []))
    {
      if state == CardWait {
        WaitForCard(cardPresent && serialRead, uid);
      } else if state == CardTouch {
        SendRequest();
      } else {
        AwaitDecision(inbound);
      }
      AlternatingCounts(log);
      TraceEndsLow(log, ledWrites);
    }
  }
}
