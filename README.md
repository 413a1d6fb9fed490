# RFID door endpoint: session state machine and UID formatter

This project models the firmware of an ESP8266 access-control endpoint. An
MFRC522 reader detects a card. The device formats the card's UID as text and
publishes one JSON request `{"rfid":"<uid>"}` on the MQTT topic `RFID_PORBLE`.
It then waits for the authorization service's reply on `RFID_PORBLE/SUB`. If
the reply's `door` field is the string `"open"`, it pulses the door LED (HIGH,
3 s, LOW). Any other reply is a denial. Either way it goes back to waiting
for a card.

The model has four modules:

- `UidFormat` (`uid_format.dfy`) models `dump_byte_array`.
  - `Dump` is the specification: what the loop appends, then `toUpperCase`.
  - `DumpByteArray` is the accumulating loop, proved equal to `Dump`.
  - `Parse` reads a formatted UID back. The lemmas prove the output layout,
    the alphabet, that upper-casing again changes nothing, and the round trip.
- `Messages` (`messages.dfy`) holds the request topic, the request serialiser and
  its read-back, the size of the serialisation buffer, and the "open" test.
- `Session` (`session.dfy`) holds the class `Controller`.
  - Its fields are the program's globals: `state`, the reader's UID,
    `rfid_in`, `mqttMessage`, and the `door` field of the parsed reply.
  - `Step` is one iteration of `loop()`. It dispatches to one handler per
    state: `WaitForCard`, `SendRequest`, `AwaitDecision`.
  - `Callback` is `mqttCallback`.
  - Two ghost traces record the outputs: `log` (requests published and
    decisions consumed) and `ledWrites` (every level written to the LED).
  - The object invariant `Valid()` states that requests and decisions
    alternate, which means at most one request is outstanding. It also
    states that the LED writes are one LOW at start-up plus one HIGH-LOW
    pulse per granted decision.
- `Wrappers` (`wrappers.dfy`) holds `Option`.

The environment of one loop iteration is a set of parameters of `Step`:
- whether a new card is present;
- whether its serial was read;
- the UID bytes read;
- the payload, if any, that the MQTT client delivers during
  `mqtt_client.loop()`.

JSON parsing of the reply is the constructor's parameter `parseDoor`. It maps
a payload to the `door` string, or to `None` when the field is absent, is not
a string, or the payload does not parse.

Details of the code that the model keeps:
- The UID text puts a space before every byte, the first included:
  `[0x04, 0xA2, 0x3B, 0x9C]` becomes `" 04 A2 3B 9C"`.
- The UID is read in the `CARD_WAIT` iteration (`PICC_ReadCardSerial`) but
  formatted and published in the next one (`CARD_TOUCH`). The model keeps
  the UID read in a field between the two.
- `String(b, HEX)` writes lower-case digits with no leading zero. The code
  adds its own `" 0"` pad and upper-cases at the end. The model follows
  these steps (`ArduinoHex`, `RawGroup`, `Raw`, `ToUpper`) and proves that
  the result is the padded upper-case group of each byte.

## Model

| member | source | states |
|---|---|---|
| UidFormat.ArduinoHex | src/main.cpp:153 | `String(b, HEX)` gives one lower-case hex digit below 0x10 and two otherwise, never with a leading zero |
| UidFormat.RawGroup | src/main.cpp:152-153 | with the `" 0"` or `" "` prefix, each byte's text is exactly three characters: a space and two lower-case hex digits |
| UidFormat.Raw | src/main.cpp:150-154 | after the loop has consumed n bytes, `content` holds 3·n characters, each a space or a lower-case hex digit |
| UidFormat.ToUpper | src/main.cpp:155 | `toUpperCase` keeps the length and upper-cases each character in place, leaving every other character unchanged |
| UidFormat.Dump | src/main.cpp:149-157 | the formatter's output for n bytes has exactly 3·n characters (so the empty UID gives ""), each a space, '0'-'9' or 'A'-'F' |
| UidFormat.DumpGroups | src/main.cpp:151-154 | characters 3i..3i+2 of the output are a space and the two upper-case hex digits of byte i, high digit first, zero-padded below 0x10 |
| UidFormat.DumpUpperIdempotent | src/main.cpp:155 | upper-casing the output a second time leaves it unchanged |
| UidFormat.ParseDump | src/main.cpp:149-157 | decoding each three-character group of the output back to a byte recovers the original UID |
| UidFormat.DumpInjective | src/main.cpp:149-157 | two UIDs give the same text if and only if they are the same UID |
| UidFormat.DumpByteArray | src/main.cpp:149-157 | the accumulating loop followed by upper-casing returns exactly the specified output, for every UID of at most 255 bytes |
| Messages.RequestPayload | src/main.cpp:77-78 | the serialised one-field request `{"rfid":"<id>"}` is 11 characters longer than the identifier |
| Messages.Grants | src/main.cpp:87-88 | the door opens exactly when the `door` field is present and is the string "open"; an absent field never opens it |
| Messages.RequestRoundTrip | src/main.cpp:77-78 | the serialised request carries the identifier verbatim: reading its `rfid` field back gives the identifier |
| Messages.UidRequestFits | src/main.cpp:37 | a formatted UID needs no JSON escaping, and its request has 3·n+11 characters, which fits the 256-byte buffer exactly when n ≤ 81 |
| Session.AsText | src/main.cpp:140-142 | the buffered message has one character per payload byte, with the byte's value |
| Session.AlternatingCounts | src/main.cpp:65-101 | when requests and decisions alternate, requests exceed decisions by exactly one after an odd number of events and are equal otherwise, so at most one request is outstanding |
| Session.TraceEndsLow | src/main.cpp:92-94 | in every reachable trace, the last level written to the LED is LOW |
| Session.LogPublish | src/main.cpp:77-81 | publishing when no request is outstanding keeps requests and decisions alternating and writes nothing to the LED |
| Session.LogConsume | src/main.cpp:86-101 | consuming a decision while a request is outstanding keeps the alternation and adds one HIGH-LOW pulse exactly when the decision is "open" |
| Session.Controller.constructor | src/main.cpp:44-50 | the session starts in CARD_WAIT with an empty buffer, no parsed decision, nothing published and the LED written LOW |
| Session.Controller.Callback | src/main.cpp:136-146 | after a delivery, the buffer is exactly the latest payload and the decision is re-parsed from it, whatever was buffered before (the last write wins) |
| Session.Controller.WaitForCard | src/main.cpp:65-70 | CARD_WAIT becomes CARD_TOUCH, storing the UID, if and only if a new card is present and its serial was read; otherwise nothing changes |
| Session.Controller.SendRequest | src/main.cpp:71-82 | CARD_TOUCH publishes exactly one request `{"rfid":"<formatted UID>"}` on `RFID_PORBLE`, whose 3·n+11 characters fit the buffer, and always moves to RECEIVE_RFID |
| Session.Controller.AwaitDecision | src/main.cpp:83-102 | with an empty buffer, the state and the outputs are unchanged. Otherwise the decision is consumed: one LED pulse if `door` is "open", none for any other value, an absent field or a parse failure. The state becomes CARD_WAIT and the buffer is cleared |
| Session.Controller.Step | src/main.cpp:63-104 | one loop iteration does exactly its state's branch. It keeps the invariant, so a request is outstanding exactly in RECEIVE_RFID and never more than one, it pulses the LED at most once per consumed decision, and it leaves the LED LOW |

## Left out

- WiFi provisioning (`setupWiFiManager`) is not modelled. It is an external library flow with no decision logic.
- The MQTT connect-and-retry loop (`connectToMQTTBroker`) is not modelled. The connection is taken as established and subscribed before the first `Step`.
- Publish failures are not modelled. `publish` is recorded as done, as the state machine assumes.
- MFRC522 and SPI calls are replaced by `Step`'s inputs. A failed serial read is taken to leave the reader's UID unchanged.
- `Serial` logging is not modelled. This includes the `message` field of the reply, which is only logged.
- `pinMode` and the real pin are not modelled. LED writes appear only as levels in the ghost trace `ledWrites`.
- The 3000 ms `delay` is not modelled. A pulse is the two writes HIGH then LOW, with no clock.
- ArduinoJson is not modelled.
  - Reply parsing is the abstract function `parseDoor`, given to the constructor.
  - The request serialiser (`RequestPayload`) is modelled only for text that needs no JSON escaping. `UidRequestFits` proves that every formatted UID is such text.
  - The capacity of the 256-byte JSON documents `doc_pub` and `doc_sub` is not modelled. `doc_pub` is never cleared and receives a new string on every request, so its pool may fill after many requests; the model does not capture what the device then publishes.
- Truncation of the serialised request to the 256-byte `jsonBuffer` is not modelled. `SendRequest` proves the request always fits, because the reader's UID has at most ten bytes.
- Session.Controller.Callback: the topic argument is not modelled. The device subscribes to one topic only, and the callback ignores the topic.
- Session.Controller.Callback: the model only delivers messages during `Step` in RECEIVE_RFID (the requires `state == ReceiveRfid`). The MQTT client runs the callback only from `mqtt_client.loop()`, and the code calls that only in that state.
- A reply is not matched to the request it answers. The code has no correlation identifier, so neither does the model.
- There is no timeout while waiting for a decision. The device waits forever, as the code does.
