/**
 * `send_lxmf_command`: validate a request, turn it into one protocol line and
 * overwrite the single-slot mailbox file `rtcom_command.txt` with it.
 */
module Dispatch {
  import opened Wrappers
  import opened PyJson
  import opened Protocol

  /** The values `ping_count` and `ping_delay` take when the request omits them. */
  const DefaultPingCount: Json := JInt(10)
  const DefaultPingDelay: Json := JInt(5)

  /** Why a request was turned down. */
  datatype Rejection =
    | MissingFields         // contact_index or command absent or falsy
    | UnknownCommand        // command is neither 'rt' nor 'rs'
    | Raised(cause: string) // an exception: the body is not a JSON object, or the file could not be written

  /** The `error` text of the reply. */
  function ErrorText(r: Rejection): string {
    match r
    case MissingFields => "Missing required fields"
    case UnknownCommand => "Unknown command"
    case Raised(cause) => cause
  }

  /** The reply of the endpoint: `{success: True, message}` or `{success: False, error}`. */
  datatype Reply = Sent(message: string) | Refused(reason: Rejection)

  /** The command a request asks for, or why it is refused. */
  function Validate(req: Object): (r: Result<Command, Rejection>)
    ensures r == Failure(MissingFields) <==>
      !Truthy(Get(req, "contact_index")) || !Truthy(Get(req, "command"))
    ensures r == Failure(UnknownCommand) <==>
      Truthy(Get(req, "contact_index")) && Truthy(Get(req, "command")) &&
      Get(req, "command") != JStr("rt") && Get(req, "command") != JStr("rs")
    ensures r.Failure? ==> r.error.MissingFields? || r.error.UnknownCommand?
    ensures r.Success? ==> r.value.contact == Str(Get(req, "contact_index"))
    ensures r.Success? ==> (r.value.Start? <==> Get(req, "command") == JStr("rt"))
    ensures r.Success? ==> (r.value.Stop? <==> Get(req, "command") == JStr("rs"))
    ensures r.Success? && r.value.Start? ==>
      r.value.count == Str(GetOr(req, "ping_count", DefaultPingCount)) &&
      r.value.delay == Str(GetOr(req, "ping_delay", DefaultPingDelay))
  {
    var contact := Get(req, "contact_index");
    var command := Get(req, "command");
    if !Truthy(contact) || !Truthy(command) then Failure(MissingFields)
    else if command == JStr("rt") then
      Success(Start(Str(contact),
                    Str(GetOr(req, "ping_count", DefaultPingCount)),
                    Str(GetOr(req, "ping_delay", DefaultPingDelay))))
    else if command == JStr("rs") then Success(Stop(Str(contact)))
    else Failure(UnknownCommand)
  }

  /** The protocol line a request is turned into, or why it is refused. */
  function Message(req: Object): (r: Result<string, Rejection>)
    ensures r.Success? <==> Validate(req).Success?
    ensures r.Failure? ==> r.error == Validate(req).error
    ensures r.Success? && Get(req, "command") == JStr("rt") ==>
      r.value == "s " + Str(Get(req, "contact_index")) + " rt " +
        Str(GetOr(req, "ping_count", DefaultPingCount)) + " " +
        Str(GetOr(req, "ping_delay", DefaultPingDelay))
    ensures r.Success? && Get(req, "command") == JStr("rs") ==>
      r.value == "s " + Str(Get(req, "contact_index")) + " rs"
  {
    match Validate(req)
    case Success(c) => Success(Encode(c))
    case Failure(e) => Failure(e)
  }

  /** The line of an accepted request reads back as the command it was built from. */
  lemma MessageDecodes(req: Object)
    requires Validate(req).Success? && Unambiguous(Validate(req).value)
    ensures Message(req).Success? && Decode(Message(req).value) == Some(Validate(req).value)
  {
    DecodeEncode(Validate(req).value);
  }

  /** The front end sends every field as a string (the values of its input boxes). */
  function FrontEndStart(contact: string, count: string, delay: string): Object {
    map["contact_index" := JStr(contact), "command" := JStr("rt"),
        "ping_count" := JStr(count), "ping_delay" := JStr(delay)]
  }

  function FrontEndStop(contact: string): Object {
    map["contact_index" := JStr(contact), "command" := JStr("rs")]
  }

  /** What the front end asks for reaches the bridge unchanged, when its fields hold no space. */
  lemma FrontEndRoundTrip(contact: string, count: string, delay: string)
    requires contact != "" && ' ' !in contact && ' ' !in count && ' ' !in delay
    ensures Message(FrontEndStart(contact, count, delay)).Success?
    ensures Decode(Message(FrontEndStart(contact, count, delay)).value) == Some(Start(contact, count, delay))
    ensures Message(FrontEndStop(contact)).Success?
    ensures Decode(Message(FrontEndStop(contact)).value) == Some(Stop(contact))
  {
    DecodeEncode(Start(contact, count, delay));
    DecodeEncode(Stop(contact));
  }

  /** The documented examples: index 3, 10 pings, 5 seconds apart; and the stop line. */
  lemma ExampleLines()
    ensures Message(map["contact_index" := JInt(3), "command" := JStr("rt"),
                        "ping_count" := JInt(10), "ping_delay" := JInt(5)]) == Success("s 3 rt 10 5")
    ensures Message(map["contact_index" := JStr("3"), "command" := JStr("rt")]) == Success("s 3 rt 10 5")
    ensures Message(map["contact_index" := JInt(3), "command" := JStr("rs")]) == Success("s 3 rs")
  {
    assert Str(JInt(3)) == "3";
    assert Str(JInt(5)) == "5";
    assert NatText(10) == NatText(1) + [DigitChar(0)];
    assert Str(JInt(10)) == "10";
    var full := map["contact_index" := JInt(3), "command" := JStr("rt"),
                     "ping_count" := JInt(10), "ping_delay" := JInt(5)];
    assert Get(full, "contact_index") == JInt(3) && Get(full, "command") == JStr("rt");
    assert GetOr(full, "ping_count", DefaultPingCount) == JInt(10);
    assert GetOr(full, "ping_delay", DefaultPingDelay) == JInt(5);
    assert Message(full).value == "s " + "3" + " rt " + "10" + " " + "5" == "s 3 rt 10 5";
    var bare := map["contact_index" := JStr("3"), "command" := JStr("rt")];
    assert Get(bare, "contact_index") == JStr("3") && Get(bare, "command") == JStr("rt");
    var stop := map["contact_index" := JInt(3), "command" := JStr("rs")];
    assert Get(stop, "contact_index") == JInt(3) && Get(stop, "command") == JStr("rs");
    assert Message(stop).value == "s " + "3" + " rs" == "s 3 rs";
  }

  /**
   * Truthiness decides presence: integer 0 is refused as a missing index,
   * while the string "0" the front end sends is accepted.
   */
  lemma ZeroIndex()
    ensures Message(map["contact_index" := JInt(0), "command" := JStr("rs")]) == Failure(MissingFields)
    ensures Message(map["contact_index" := JStr("0"), "command" := JStr("rs")]) == Success("s 0 rs")
    ensures Message(map["contact_index" := JStr("0"), "command" := JStr("")]) == Failure(MissingFields)
  {
    var stop := map["contact_index" := JStr("0"), "command" := JStr("rs")];
    assert Get(stop, "contact_index") == JStr("0") && Get(stop, "command") == JStr("rs");
    assert Message(stop).value == "s " + "0" + " rs" == "s 0 rs";
  }

  /** The accepted codes are 'rt' and 'rs'; the words 'start' and 'stop' are unknown commands. */
  lemma OnlyProtocolCodes(contact: Json)
    requires Truthy(contact)
    ensures Message(map["contact_index" := contact, "command" := JStr("start")]) == Failure(UnknownCommand)
    ensures Message(map["contact_index" := contact, "command" := JStr("stop")]) == Failure(UnknownCommand)
  {
  }

  /** The command file: one pending line at most, replaced by every accepted request. */
  class Mailbox {
    /** The content of the file; None while the file does not exist. */
    var content: Option<string>

    constructor (initial: Option<string>)
      ensures content == initial
    {
      content := initial;
    }

    /**
     * Handles one POST. `body` is the decoded request body, or the text of the
     * exception raised while reading it as an object; `writeError` is the text
     * of the exception raised by opening the file for writing, if it fails.
     */
    method Send(body: Result<Object, string>, writeError: Option<string>) returns (reply: Reply)
      modifies this
      ensures body.Failure? ==> reply == Refused(Raised(body.error))
      ensures body.Success? && Message(body.value).Failure? ==>
        reply == Refused(Message(body.value).error)
      ensures body.Success? && Message(body.value).Success? ==>
        reply == if writeError.None? then Sent(Message(body.value).value) else Refused(Raised(writeError.value))
      ensures body.Success? && (!Truthy(Get(body.value, "contact_index")) || !Truthy(Get(body.value, "command"))) ==>
        reply.Refused? && ErrorText(reply.reason) == "Missing required fields"
      ensures (body.Success? && Truthy(Get(body.value, "contact_index")) && Truthy(Get(body.value, "command")) &&
               Get(body.value, "command") != JStr("rt") && Get(body.value, "command") != JStr("rs")) ==>
        reply.Refused? && ErrorText(reply.reason) == "Unknown command"
      ensures body.Failure? ==> ErrorText(reply.reason) == body.error
      ensures body.Success? && Message(body.value).Success? && writeError.Some? ==>
        reply.Refused? && ErrorText(reply.reason) == writeError.value
      ensures reply.Sent? ==> content == Some(reply.message + "\n")
      ensures !reply.Sent? ==> content == old(content)
    {
      if body.Failure? {
        return Refused(Raised(body.error));
      }
      var line := Message(body.value);
      if line.Failure? {
        return Refused(line.error);
      }
      if writeError.Some? {
        return Refused(Raised(writeError.value));
      }
      content := Some(line.value + "\n");
      reply := Sent(line.value);
    }
  }
}
