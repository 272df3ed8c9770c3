/**
 * The messages exchanged between the browser client and the server: socket events in both
 * directions, and the HTTP body and reply of `POST /execute`.
 */
module Protocol {
  import opened Wrappers

  /** A socket id, assigned by the transport; socket.io also uses it as the name of the socket's own room. */
  type SocketId = string
  type RoomId = string

  /** One entry of the `clients` list sent with `joined`; the username is undefined for a socket that never joined. */
  datatype ClientInfo = ClientInfo(socketId: SocketId, username: Option<string>)

  /** Events a client emits to the server. */
  datatype ClientMessage =
    | Join(roomId: RoomId, username: string)
    | CodeChange(roomId: RoomId, fileName: string, code: string)
    | FileCreated(roomId: RoomId, fileName: string, language: string, value: string)

  /** Events the server emits to a client; `recordedName` is the wire field `username` of `disconnected`. */
  datatype ServerEvent =
    | Joined(clients: seq<ClientInfo>, username: string, socketId: SocketId)
    | CodeChangeRelay(fileName: string, code: string)
    | FileCreatedRelay(fileName: string, language: string, value: string)
    | Disconnected(socketId: SocketId, recordedName: Option<string>)

  /** One emit of the server: the event `event` sent to the socket `to`. */
  datatype Delivery = Delivery(to: SocketId, event: ServerEvent)

  /** A file as the client sends it to `/execute`; the server reads only `name` and `value`. */
  datatype SentFile = SentFile(name: string, value: string)

  /** The body of `POST /execute`; a field the client left out is `None`. */
  datatype ExecuteBody = ExecuteBody(files: Option<seq<SentFile>>, mainFile: Option<SentFile>, language: Option<string>)

  /**
   * The `run` part of the execution service's answer. Each field is a string in which `""`
   * stands for every falsy value the service may send (absent, `null`, empty).
   */
  datatype RunResult = RunResult(output: string, stderr: string, signal: string)

  /** The execution service's answer body; `run` is undefined when the service did not run anything. */
  datatype ServiceReply = ServiceReply(run: Option<RunResult>)

  /** What `/execute` answers: the service's own body, or `{error: ...}`. */
  datatype ResponseBody = Forwarded(reply: ServiceReply) | ErrorBody(error: string)

  datatype HttpResponse = HttpResponse(status: int, body: ResponseBody)

  /** The event the server relays for a message a client emitted; `join` is answered, not relayed. */
  function Relayed(msg: ClientMessage): (event: Option<ServerEvent>)
    ensures msg.Join? <==> event.None?
    ensures msg.CodeChange? ==> event == Some(CodeChangeRelay(msg.fileName, msg.code))
    ensures msg.FileCreated? ==> event == Some(FileCreatedRelay(msg.fileName, msg.language, msg.value))
  {
    match msg
    case Join(_, _) => None
    case CodeChange(_, fileName, code) => Some(CodeChangeRelay(fileName, code))
    case FileCreated(_, fileName, language, value) => Some(FileCreatedRelay(fileName, language, value))
  }
}
