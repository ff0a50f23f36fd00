/** The client's reply dispatcher `HandelMessage` of client.ts: for each incoming message,
    the message the client sends back, if any. */
module Client {
  import opened Wrappers
  import opened Types

  /** Declared in client.ts and never read or written; the dispatcher takes no state. */
  datatype ClientState = Connecting | Connected | AwaitingFileStructure | Ready

  /** A parsed incoming message: its `type` tag and the fields the known types carry
      (`message` and `fatial` for "error", `folder` for "fileStructure"). */
  datatype Incoming = Incoming(msgType: string, message: string, fatal: bool, folder: Option<Folder>)

  /** The messages the client sends. */
  datatype Outgoing = LoginReply(username: string, password: Option<string>) | GetFiles

  /** What handling one message does: the reply sent, and whether the connection is closed. */
  datatype Reaction = Reaction(reply: Option<Outgoing>, closes: bool)

  /** The `type` tag an outgoing message is sent with. */
  function OutgoingType(o: Outgoing): string
  {
    match o
    case LoginReply(_, _) => "login"
    case GetFiles => "getFiles"
  }

  /** A login challenge is answered with the configured credentials, a login success with a
      request for the file tree, and nothing else is answered. No message closes the
      connection, not even an error flagged fatal, and a received tree is dropped. */
  function HandleMessage(msg: Incoming, config: ClientConfig): (r: Reaction)
    ensures !r.closes
    ensures r.reply.Some? <==> msg.msgType == "login" || msg.msgType == "loginSuccess"
    ensures msg.msgType == "login" ==> r.reply == Some(LoginReply(config.username, config.password))
    ensures msg.msgType == "loginSuccess" ==> r.reply == Some(GetFiles)
  {
    match msg.msgType
    case "error" => Reaction(None, false)
    case "login" => Reaction(Some(LoginReply(config.username, config.password)), false)
    case "loginSuccess" => Reaction(Some(GetFiles), false)
    case "fileStructure" => Reaction(None, false)
    case _ => Reaction(None, false)
  }

  /** The reaction depends on the message only through its type tag: the error text, the
      fatal flag and any received folder make no difference. */
  lemma ReactionDependsOnlyOnType(m1: Incoming, m2: Incoming, config: ClientConfig)
    requires m1.msgType == m2.msgType
    ensures HandleMessage(m1, config) == HandleMessage(m2, config)
  {
  }

  /** A reply goes out with the type tag "login" exactly when a login challenge came in,
      and with "getFiles" exactly when a login success came in. */
  lemma ReplyTypeTag(msg: Incoming, config: ClientConfig)
    ensures HandleMessage(msg, config).reply.Some? ==>
      OutgoingType(HandleMessage(msg, config).reply.value) == (if msg.msgType == "login" then "login" else "getFiles")
  {
  }
}
