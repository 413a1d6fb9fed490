/**
 * The messages exchanged with the authorization service over MQTT: the
 * one-field request `{"rfid":"<uid>"}` published on the request topic, and the
 * test applied to the `door` field of the reply.
 */
module Messages {
  import opened Wrappers
  import opened UidFormat

  /** Topic the access requests are published on. */
  const RequestTopic := "RFID_PORBLE"

  /** Size of the character buffer the request is serialised into. */
  const JsonBufferSize := 256

  /** Text that a JSON string literal holds verbatim: no quote, backslash or control character. */
  predicate PlainJsonText(s: string) {
    forall i :: 0 <= i < |s| ==> s[i] != '"' && s[i] != '\\' && ' ' <= s[i]
  }

  /** The serialised request document with the single field `rfid`. */
  function RequestPayload(rfid: string): (r: string)
    requires PlainJsonText(rfid)
    ensures |r| == |rfid| + 11
  {
    "{\"rfid\":\"" + rfid + "\"}"
  }

  /** Reads the `rfid` field back out of a request document of that one shape. */
  function RfidField(payload: string): Option<string> {
    if |payload| >= 11 && payload[..9] == "{\"rfid\":\"" && payload[|payload| - 2..] == "\"}"
       && PlainJsonText(payload[9..|payload| - 2])
    then Some(payload[9..|payload| - 2])
    else None
  }

  /** The request carries the identifier unchanged: reading the field back gives it. */
  lemma RequestRoundTrip(rfid: string)
    requires PlainJsonText(rfid)
    ensures RfidField(RequestPayload(rfid)) == Some(rfid)
  {
    var p := RequestPayload(rfid);
    assert p[..9] == "{\"rfid\":\"";
    assert p[|p| - 2..] == "\"}";
    assert p[9..|p| - 2] == rfid;
  }

  /**
   * A formatted UID needs no escaping, its request has 3n + 11 characters, and
   * that length fits the serialisation buffer (with its terminating NUL)
   * exactly when the UID has at most 81 bytes.
   */
  lemma UidRequestFits(uid: seq<byte>)
    ensures PlainJsonText(Dump(uid))
    ensures |RequestPayload(Dump(uid))| == 3 * |uid| + 11
    ensures |RequestPayload(Dump(uid))| < JsonBufferSize <==> |uid| <= 81
  {
    var s := Dump(uid);
    forall i | 0 <= i < |s|
      ensures s[i] != '"' && s[i] != '\\' && ' ' <= s[i]
    {
      assert IsUidChar(s[i]);
    }
  }

  /** A decision opens the door only when its `door` field is the string "open". */
  function Grants(door: Option<string>): (open: bool)
    ensures open <==> door == Some("open")
    ensures door.None? ==> !open
  {
    door.Some? && door.value == "open"
  }
}
