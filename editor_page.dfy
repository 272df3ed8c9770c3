/**
 * The state the editor page keeps for one room: the file set, the name of the file shown in
 * the editor, the output pane, and what it has emitted on its socket.
 */
module EditorPage {
  import opened Wrappers
  import opened Text
  import opened Protocol
  import opened FileSet

  /** The successive tests of `createNewFile` that pick the new file's language; the last match wins. */
  method DeriveLanguage(fileName: string) returns (lang: string)
    ensures lang == LanguageTag(fileName)
  {
    lang := "javascript";
    if EndsWith(fileName, ".py") { lang := "python"; }
    if EndsWith(fileName, ".java") { lang := "java"; }
    if EndsWith(fileName, ".cpp") { lang := "cpp"; }
    if EndsWith(fileName, ".css") { lang := "css"; }
    if EndsWith(fileName, ".html") { lang := "html"; }
  }

  class EditorState {
    const roomId: RoomId
    var files: Files
    var activeFileName: string
    var output: string
    var isError: bool
    /** Whether the socket has been opened; emits before that are skipped. */
    var connected: bool
    /** Every event emitted on the socket, oldest first. */
    var outbox: seq<ClientMessage>

    /** The file set is keyed by name and the active name is always one of its keys. */
    ghost predicate Valid()
      reads this
    {
      activeFileName in files && KeyedByName(files)
    }

    constructor (roomId: RoomId)
      ensures Valid()
      ensures this.roomId == roomId
      ensures files == InitialFiles() && activeFileName == "script.js"
      ensures output == "" && !isError && !connected && outbox == []
    {
      this.roomId := roomId;
      files := InitialFiles();
      activeFileName := "script.js";
      output := "";
      isError := false;
      connected := false;
      outbox := [];
    }

    /** Opening the socket, then emitting `join` with the username the landing page passed on. */
    method OpenSocket(username: string)
      requires Valid()
      modifies this
      ensures Valid() && connected
      ensures outbox == old(outbox) + [Join(roomId, username)]
      ensures files == old(files) && activeFileName == old(activeFileName)
      ensures output == old(output) && isError == old(isError)
    {
      connected := true;
      outbox := outbox + [Join(roomId, username)];
    }

    /** The `code_change` handler. */
    method OnCodeChange(fileName: string, code: string)
      requires Valid()
      modifies this
      ensures Valid()
      ensures files == ApplyCodeChange(old(files), fileName, code)
      ensures activeFileName == old(activeFileName) && outbox == old(outbox) && connected == old(connected)
      ensures output == old(output) && isError == old(isError)
    {
      files := ApplyCodeChange(files, fileName, code);
    }

    /** The `file_created` handler. */
    method OnFileCreated(fileName: string, language: string, value: string)
      requires Valid()
      modifies this
      ensures Valid()
      ensures files == ApplyFileCreated(old(files), fileName, language, value)
      ensures activeFileName == old(activeFileName) && outbox == old(outbox) && connected == old(connected)
      ensures output == old(output) && isError == old(isError)
    {
      files := ApplyFileCreated(files, fileName, language, value);
    }

    /** Any event from the server, as the registered handlers treat it. */
    method Receive(event: ServerEvent)
      requires Valid()
      modifies this
      ensures Valid()
      ensures files == ApplyRemote(old(files), event)
      ensures activeFileName == old(activeFileName) && outbox == old(outbox) && connected == old(connected)
      ensures output == old(output) && isError == old(isError)
    {
      match event
      case CodeChangeRelay(fileName, code) => OnCodeChange(fileName, code);
      case FileCreatedRelay(fileName, language, value) => OnFileCreated(fileName, language, value);
      case Joined(_, _, _) =>
      case Disconnected(_, _) =>
    }

    /** `handleEditorChange`: the editor's text replaces the active file's value and is emitted. */
    method HandleEditorChange(value: string)
      requires Valid()
      modifies this
      ensures Valid()
      ensures files == ApplyEdit(old(files), old(activeFileName), value)
      ensures activeFileName == old(activeFileName) && connected == old(connected)
      ensures outbox == old(outbox) + (if connected then [CodeChange(roomId, activeFileName, value)] else [])
      ensures output == old(output) && isError == old(isError)
    {
      files := ApplyEdit(files, activeFileName, value);
      if connected {
        outbox := outbox + [CodeChange(roomId, activeFileName, value)];
      }
    }

    /**
     * `createNewFile`, given what the name prompt returned (`None` when it was cancelled).
     * An empty or existing name changes nothing; otherwise the new file is inserted, shown and emitted.
     */
    method CreateNewFile(answer: Option<string>)
      requires Valid()
      modifies this
      ensures Valid()
      ensures connected == old(connected) && output == old(output) && isError == old(isError)
      ensures answer.None? || answer.value == "" || answer.value in old(files) ==>
        files == old(files) && activeFileName == old(activeFileName) && outbox == old(outbox)
      ensures answer.Some? && answer.value != "" && answer.value !in old(files) ==>
        var name := answer.value;
        && files == old(files)[name := NewFile(name)]
        && activeFileName == name
        && outbox == old(outbox) + (if connected then [FileCreated(roomId, name, NewFile(name).language, NewFile(name).value)] else [])
    {
      if answer.None? || answer.value == "" {
        return;
      }
      var fileName := answer.value;
      if fileName in files {
        return;
      }
      var lang := DeriveLanguage(fileName);
      var newFile := File(fileName, lang, NewFileValue(fileName));
      files := files[fileName := newFile];
      activeFileName := fileName;
      if connected {
        outbox := outbox + [FileCreated(roomId, fileName, lang, newFile.value)];
      }
    }

    /** A click on an entry of the sidebar, which lists exactly the keys of the file set. */
    method SelectFile(fileName: string)
      requires Valid() && fileName in files
      modifies this
      ensures Valid()
      ensures activeFileName == fileName
      ensures files == old(files) && outbox == old(outbox) && connected == old(connected)
      ensures output == old(output) && isError == old(isError)
    {
      activeFileName := fileName;
    }

    /** The part of `runCode` after the request: the reply, or `None` when it failed, fills the output pane. */
    method RunCode(reply: Option<HttpResponse>)
      requires Valid()
      modifies this
      ensures Valid()
      ensures (output, isError) == RunDisplay(reply)
      ensures files == old(files) && activeFileName == old(activeFileName)
      ensures outbox == old(outbox) && connected == old(connected)
    {
      isError := false;
      if RunDelivered(reply) {
        var result := reply.value.body.reply.run.value;
        if result.signal != "" {
          output := "Error: " + result.signal;
          isError := true;
        } else {
          output := Or(result.output, Or(result.stderr, "No Output"));
          if result.stderr != "" {
            isError := true;
          }
        }
      } else {
        output := FailureMessage;
        isError := true;
      }
    }
  }
}
