/**
 * The client's file set: a map from file name to file, the updates the socket handlers and the
 * editor apply to it, the name-suffix tables, and the rule that turns an execution reply into
 * what the output pane shows.
 */
module FileSet {
  import opened Wrappers
  import opened Text
  import opened Protocol

  datatype File = File(name: string, language: string, value: string)

  type Files = map<string, File>

  /** Every entry is stored under its own name: the name is the key. */
  ghost predicate KeyedByName(files: Files) {
    forall k :: k in files ==> files[k].name == k
  }

  /** The three files every editor starts with. */
  function InitialFiles(): (files: Files)
    ensures files.Keys == {"script.js", "style.css", "index.html"}
    ensures KeyedByName(files)
  {
    map[
      "script.js" := File("script.js", "javascript", "// Write your JS code here\nconsole.log('Hello World');"),
      "style.css" := File("style.css", "css", "/* Write your CSS code here */\nbody { background: #000; }"),
      "index.html" := File("index.html", "html", "\n<div></div>")
    ]
  }

  /** The state updater of the remote `code_change` handler. */
  function ApplyCodeChange(files: Files, fileName: string, code: string): (r: Files)
    ensures r.Keys == files.Keys
    ensures fileName !in files ==> r == files
    ensures fileName in files ==> r[fileName] == File(files[fileName].name, files[fileName].language, code)
    ensures forall k :: k in files && k != fileName ==> r[k] == files[k]
  {
    if fileName in files then
      files[fileName := files[fileName].(value := code)]
    else
      files
  }

  /** The state updater of the remote `file_created` handler: insert only when the name is absent. */
  function ApplyFileCreated(files: Files, fileName: string, language: string, value: string): (r: Files)
    ensures r.Keys == files.Keys + {fileName}
    ensures fileName in files ==> r == files
    ensures fileName !in files ==> r[fileName] == File(fileName, language, value)
    ensures forall k :: k in files ==> r[k] == files[k]
  {
    if fileName !in files then
      files[fileName := File(fileName, language, value)]
    else
      files
  }

  /** The state updater of a local edit of the active file. */
  function ApplyEdit(files: Files, active: string, value: string): (r: Files)
    requires active in files
    ensures r.Keys == files.Keys
    ensures r[active] == File(files[active].name, files[active].language, value)
    ensures forall k :: k in files && k != active ==> r[k] == files[k]
  {
    files[active := files[active].(value := value)]
  }

  /** The content a newly created file starts with. */
  function NewFileValue(fileName: string): (v: string)
    ensures |v| == 13 + |fileName|
    ensures v[..13] == "// New file: " && v[13..] == fileName
  {
    "// New file: " + fileName
  }

  /** The file a local create inserts. */
  function NewFile(fileName: string): (f: File)
    ensures f.name == fileName && f.value == NewFileValue(fileName)
    ensures f.language == LanguageTag(fileName)
  {
    File(fileName, LanguageTag(fileName), NewFileValue(fileName))
  }

  /** The suffixes that select a language never overlap: each pair differs in a final character. */
  lemma SuffixesExclusive(s: string)
    ensures EndsWith(s, ".py") ==> !EndsWith(s, ".java") && !EndsWith(s, ".cpp") && !EndsWith(s, ".css") && !EndsWith(s, ".html") && !EndsWith(s, ".js")
    ensures EndsWith(s, ".java") ==> !EndsWith(s, ".cpp") && !EndsWith(s, ".css") && !EndsWith(s, ".html") && !EndsWith(s, ".js")
    ensures EndsWith(s, ".cpp") ==> !EndsWith(s, ".css") && !EndsWith(s, ".html") && !EndsWith(s, ".js")
    ensures EndsWith(s, ".css") ==> !EndsWith(s, ".html") && !EndsWith(s, ".js")
    ensures EndsWith(s, ".html") ==> !EndsWith(s, ".js")
  {
    if EndsWith(s, ".py") { EndsWithFromEnd(s, ".py", 0); }
    if EndsWith(s, ".java") { EndsWithFromEnd(s, ".java", 0); }
    if EndsWith(s, ".cpp") { EndsWithFromEnd(s, ".cpp", 0); }
    if EndsWith(s, ".html") { EndsWithFromEnd(s, ".html", 0); }
    if EndsWith(s, ".css") { EndsWithFromEnd(s, ".css", 0); EndsWithFromEnd(s, ".css", 1); }
    if EndsWith(s, ".js") { EndsWithFromEnd(s, ".js", 0); EndsWithFromEnd(s, ".js", 1); }
  }

  /**
   * The language a new file gets from its name. The source assigns the tag in five successive
   * tests, the last match winning; since the suffixes are exclusive, exactly one tag applies.
   */
  function LanguageTag(fileName: string): (lang: string)
    ensures lang in {"javascript", "python", "java", "cpp", "css", "html"}
    ensures lang == "python" <==> EndsWith(fileName, ".py")
    ensures lang == "java" <==> EndsWith(fileName, ".java")
    ensures lang == "cpp" <==> EndsWith(fileName, ".cpp")
    ensures lang == "css" <==> EndsWith(fileName, ".css")
    ensures lang == "html" <==> EndsWith(fileName, ".html")
    ensures lang == "javascript" <==>
      !EndsWith(fileName, ".py") && !EndsWith(fileName, ".java") && !EndsWith(fileName, ".cpp") &&
      !EndsWith(fileName, ".css") && !EndsWith(fileName, ".html")
  {
    SuffixesExclusive(fileName);
    if EndsWith(fileName, ".html") then "html"
    else if EndsWith(fileName, ".css") then "css"
    else if EndsWith(fileName, ".cpp") then "cpp"
    else if EndsWith(fileName, ".java") then "java"
    else if EndsWith(fileName, ".py") then "python"
    else "javascript"
  }

  /** The sidebar icons: globe, palette, scroll, snake, coffee, gear, and a plain page. */
  datatype Icon = Globe | Palette | Scroll | Snake | Coffee | Gear | Page

  /** The icon shown beside a file name; the first matching suffix wins. */
  function FileIcon(fileName: string): (icon: Icon)
    ensures icon == Globe <==> EndsWith(fileName, ".html")
    ensures icon == Palette <==> EndsWith(fileName, ".css")
    ensures icon == Scroll <==> EndsWith(fileName, ".js")
    ensures icon == Snake <==> EndsWith(fileName, ".py")
    ensures icon == Coffee <==> EndsWith(fileName, ".java")
    ensures icon == Gear <==> EndsWith(fileName, ".cpp")
  {
    SuffixesExclusive(fileName);
    if EndsWith(fileName, ".html") then Globe
    else if EndsWith(fileName, ".css") then Palette
    else if EndsWith(fileName, ".js") then Scroll
    else if EndsWith(fileName, ".py") then Snake
    else if EndsWith(fileName, ".java") then Coffee
    else if EndsWith(fileName, ".cpp") then Gear
    else Page
  }

  /** The icon and the language of a name tell the same story; `.js` and unknown suffixes both run as JavaScript. */
  lemma IconAgreesWithLanguage(fileName: string)
    ensures FileIcon(fileName) == Globe <==> LanguageTag(fileName) == "html"
    ensures FileIcon(fileName) == Palette <==> LanguageTag(fileName) == "css"
    ensures FileIcon(fileName) == Snake <==> LanguageTag(fileName) == "python"
    ensures FileIcon(fileName) == Coffee <==> LanguageTag(fileName) == "java"
    ensures FileIcon(fileName) == Gear <==> LanguageTag(fileName) == "cpp"
    ensures FileIcon(fileName) in {Scroll, Page} <==> LanguageTag(fileName) == "javascript"
  {
  }

  /** A socket event as the client's handlers apply it: `joined` only shows a toast, `disconnected` has no handler. */
  function ApplyRemote(files: Files, event: ServerEvent): (r: Files)
    ensures files.Keys <= r.Keys
    ensures KeyedByName(files) ==> KeyedByName(r)
    ensures event.Joined? || event.Disconnected? ==> r == files
  {
    match event
    case CodeChangeRelay(fileName, code) => ApplyCodeChange(files, fileName, code)
    case FileCreatedRelay(fileName, language, value) => ApplyFileCreated(files, fileName, language, value)
    case _ => files
  }

  /** A remote `file_created` is idempotent: delivering it twice is the same as once. */
  lemma FileCreatedIdempotent(files: Files, fileName: string, language: string, value: string)
    ensures ApplyFileCreated(ApplyFileCreated(files, fileName, language, value), fileName, language, value)
         == ApplyFileCreated(files, fileName, language, value)
  {
  }

  // ---------------------------------------------------------------------------------------
  // The output pane after a run.

  const FailureMessage := "Error: Failed to execute code."

  /**
   * The request reached the server, the server answered with a 2xx status, and the answer has a
   * `run` part. Anything else makes the client's request or its `result.signal` read throw.
   */
  predicate RunDelivered(reply: Option<HttpResponse>) {
    && reply.Some?
    && 200 <= reply.value.status < 300
    && reply.value.body.Forwarded?
    && reply.value.body.reply.run.Some?
  }

  /** What a `run` result shows: the signal if there is one, else output, else stderr, else a placeholder. */
  function ShowRun(run: RunResult): (shown: (string, bool))
    ensures shown.0 != ""
    ensures shown.1 <==> run.signal != "" || run.stderr != ""
    ensures run.signal != "" ==> shown.0 == "Error: " + run.signal
    ensures run.signal == "" && run.output != "" ==> shown.0 == run.output
    ensures run.signal == "" && run.output == "" && run.stderr != "" ==> shown.0 == run.stderr
    ensures run.signal == "" && run.output == "" && run.stderr == "" ==> shown.0 == "No Output"
  {
    if run.signal != "" then ("Error: " + run.signal, true)
    else (Or(run.output, Or(run.stderr, "No Output")), run.stderr != "")
  }

  /** The pair (output, isError) a run leaves in the output pane, given the server's reply or its absence. */
  function RunDisplay(reply: Option<HttpResponse>): (shown: (string, bool))
    ensures shown.0 != ""
    ensures !RunDelivered(reply) ==> shown == (FailureMessage, true)
    ensures RunDelivered(reply) ==> shown == ShowRun(reply.value.body.reply.run.value)
    ensures shown.1 <==> !RunDelivered(reply) || reply.value.body.reply.run.value.signal != "" || reply.value.body.reply.run.value.stderr != ""
  {
    if RunDelivered(reply) then ShowRun(reply.value.body.reply.run.value) else (FailureMessage, true)
  }
}
