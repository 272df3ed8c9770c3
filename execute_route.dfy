/**
 * The `/execute` route: validation of the posted body, the file list with the entry file
 * first, the request for the execution service, and the response sent back to the client.
 * The service call itself is a parameter: a total function from request to outcome.
 */
module ExecuteRoute {
  import opened Wrappers
  import opened Seqs
  import opened Protocol

  /** A file as the execution service takes it. */
  datatype PistonFile = PistonFile(name: string, content: string)

  datatype PistonRequest = PistonRequest(language: string, version: string, files: seq<PistonFile>)

  /** What the service call gives back: its response body, or a thrown error. */
  datatype UpstreamOutcome = UpstreamOk(data: ServiceReply) | UpstreamFailed

  /** The version the route always asks for: the latest the service has. */
  const AnyVersion := "*"

  /** One of `files`, `mainFile` and `language` is falsy; an empty language string is falsy too. */
  predicate MissingData(body: ExecuteBody) {
    body.files.None? || body.mainFile.None? || body.language.None? || body.language.value == ""
  }

  /** `{ name: f.name, content: f.value }`. */
  function ToPiston(f: SentFile): PistonFile {
    PistonFile(f.name, f.value)
  }

  /** Every file converted, in order. */
  function Converted(files: seq<SentFile>): (r: seq<PistonFile>)
    ensures |r| == |files|
  {
    if files == [] then [] else [ToPiston(files[0])] + Converted(files[1..])
  }

  function SentNames(files: seq<SentFile>): (names: seq<string>)
    ensures |names| == |files|
    ensures forall i :: 0 <= i < |files| ==> names[i] == files[i].name
  {
    if files == [] then [] else [files[0].name] + SentNames(files[1..])
  }

  function FileNames(files: seq<PistonFile>): (names: seq<string>)
    ensures |names| == |files|
    ensures forall i :: 0 <= i < |files| ==> names[i] == files[i].name
  {
    if files == [] then [] else [files[0].name] + FileNames(files[1..])
  }

  /** `files.filter(f => f.name !== mainName).map(...)`: the files other than the entry, converted. */
  function Rest(files: seq<SentFile>, mainName: string): (r: seq<PistonFile>)
    ensures |r| <= |files|
    ensures forall i :: 0 <= i < |r| ==> r[i].name != mainName
  {
    if files == [] then []
    else (if files[0].name != mainName then [ToPiston(files[0])] else []) + Rest(files[1..], mainName)
  }

  /** The kept files keep their input order: filtering a concatenation filters each part. */
  lemma {:induction false} RestAppend(a: seq<SentFile>, b: seq<SentFile>, mainName: string)
    ensures Rest(a + b, mainName) == Rest(a, mainName) + Rest(b, mainName)
  {
    if a == [] {
      assert a + b == b;
    } else {
      assert (a + b)[1..] == a[1..] + b;
      RestAppend(a[1..], b, mainName);
    }
  }

  /** A converted file is kept exactly when it is one of the input files and its name is not the entry's. */
  lemma {:induction false} RestMembers(files: seq<SentFile>, mainName: string)
    ensures forall p :: p in Rest(files, mainName) <==> exists f :: f in files && f.name != mainName && ToPiston(f) == p
  {
    if files != [] {
      RestMembers(files[1..], mainName);
      assert files == [files[0]] + files[1..];
      forall p | p in Rest(files, mainName) ensures exists f :: f in files && f.name != mainName && ToPiston(f) == p {
        if files[0].name != mainName && p == ToPiston(files[0]) {
          assert files[0] in files;
        } else {
          var f :| f in files[1..] && f.name != mainName && ToPiston(f) == p;
          assert f in files;
        }
      }
    }
  }

  /** The names kept are the input names other than the entry's. */
  lemma {:induction false} RestNames(files: seq<SentFile>, mainName: string)
    ensures forall n :: n in FileNames(Rest(files, mainName)) <==> n in SentNames(files) && n != mainName
  {
    if files != [] {
      RestNames(files[1..], mainName);
      var head := if files[0].name != mainName then [ToPiston(files[0])] else [];
      assert FileNames(head + Rest(files[1..], mainName)) == FileNames(head) + FileNames(Rest(files[1..], mainName));
      assert SentNames(files) == [files[0].name] + SentNames(files[1..]);
    }
  }

  /** Distinct input names give distinct kept names. */
  lemma {:induction false} RestDistinct(files: seq<SentFile>, mainName: string)
    requires Distinct(SentNames(files))
    ensures Distinct(FileNames(Rest(files, mainName)))
  {
    if files != [] {
      DistinctNamesTail(files);
      RestDistinct(files[1..], mainName);
      RestNames(files[1..], mainName);
      if files[0].name != mainName {
        assert FileNames(Rest(files, mainName)) == [files[0].name] + FileNames(Rest(files[1..], mainName));
      }
    }
  }

  /** `orderedFiles`: the entry file, then the other files in their input order. */
  function OrderedFiles(files: seq<SentFile>, main: SentFile): (r: seq<PistonFile>)
    ensures 1 <= |r| <= |files| + 1
    ensures r[0].name == main.name && r[0].content == main.value
    ensures forall i :: 1 <= i < |r| ==> r[i].name != main.name
  {
    [ToPiston(main)] + Rest(files, main.name)
  }

  /** No name appears twice in the request when the posted names were distinct. */
  lemma OrderedNamesDistinct(files: seq<SentFile>, main: SentFile)
    requires Distinct(SentNames(files))
    ensures Distinct(FileNames(OrderedFiles(files, main)))
  {
    RestDistinct(files, main.name);
    RestNames(files, main.name);
    var rest := FileNames(Rest(files, main.name));
    assert FileNames(OrderedFiles(files, main)) == [main.name] + rest;
    assert main.name !in rest;
  }

  /** A list without the entry's name is kept whole. */
  lemma {:induction false} RestKeepsOthers(files: seq<SentFile>, mainName: string)
    requires forall i :: 0 <= i < |files| ==> files[i].name != mainName
    ensures Rest(files, mainName) == Converted(files)
  {
    if files != [] {
      RestKeepsOthers(files[1..], mainName);
    }
  }

  /** The first name of a list of distinct names does not recur, and the rest are distinct. */
  lemma DistinctNamesTail(files: seq<SentFile>)
    requires files != [] && Distinct(SentNames(files))
    ensures files[0].name !in SentNames(files[1..]) && Distinct(SentNames(files[1..]))
  {
    var names, tail := SentNames(files), SentNames(files[1..]);
    assert names == [files[0].name] + tail;
    forall i, j | 0 <= i < j < |tail| ensures tail[i] != tail[j] {
      assert names[i + 1] == tail[i] && names[j + 1] == tail[j];
    }
  }

  /** A posted file's name is among the posted names. */
  lemma {:induction false} NameListed(files: seq<SentFile>, f: SentFile)
    requires f in files
    ensures f.name in SentNames(files)
  {
    if files[0] != f {
      NameListed(files[1..], f);
    }
  }

  /** With distinct names, the filter drops exactly one file, the entry. */
  lemma {:induction false} RestDropsEntry(files: seq<SentFile>, main: SentFile)
    requires Distinct(SentNames(files)) && main in files
    ensures multiset(Rest(files, main.name)) + multiset{ToPiston(main)} == multiset(Converted(files))
  {
    var m, tail := main.name, files[1..];
    DistinctNamesTail(files);
    if files[0] == main {
      forall i | 0 <= i < |tail| ensures tail[i].name != m {
        assert SentNames(tail)[i] == tail[i].name;
      }
      RestKeepsOthers(tail, m);
    } else {
      assert main in tail;
      NameListed(tail, main);
      RestDropsEntry(tail, main);
    }
  }

  /**
   * When the entry is one of the posted files and the names are distinct, the request holds
   * every posted file exactly once: it is a reordering of the posted list.
   */
  lemma OrderedFilesPermutes(files: seq<SentFile>, main: SentFile)
    requires Distinct(SentNames(files)) && main in files
    ensures multiset(OrderedFiles(files, main)) == multiset(Converted(files))
  {
    RestDropsEntry(files, main);
  }

  /** The request for the service, or `None` when the body is rejected. */
  function BuildRequest(body: ExecuteBody): (req: Option<PistonRequest>)
    ensures req.None? <==> MissingData(body)
    ensures req.Some? ==> req.value.language == body.language.value && req.value.language != ""
    ensures req.Some? ==> req.value.version == AnyVersion
    ensures req.Some? ==> req.value.files == OrderedFiles(body.files.value, body.mainFile.value)
  {
    if MissingData(body) then None
    else Some(PistonRequest(body.language.value, AnyVersion, OrderedFiles(body.files.value, body.mainFile.value)))
  }

  /**
   * The route: 400 with "Missing data" for a rejected body, the service's body unchanged with
   * status 200 when its call succeeds, 500 with "Failed to execute code" when it throws.
   */
  function Execute(body: ExecuteBody, piston: PistonRequest -> UpstreamOutcome): (res: HttpResponse)
    ensures MissingData(body) ==> res == HttpResponse(400, ErrorBody("Missing data"))
    ensures !MissingData(body) && piston(BuildRequest(body).value).UpstreamFailed? ==>
      res == HttpResponse(500, ErrorBody("Failed to execute code"))
    ensures !MissingData(body) && piston(BuildRequest(body).value).UpstreamOk? ==>
      res == HttpResponse(200, Forwarded(piston(BuildRequest(body).value).data))
  {
    match BuildRequest(body)
    case None => HttpResponse(400, ErrorBody("Missing data"))
    case Some(req) =>
      match piston(req)
      case UpstreamOk(data) => HttpResponse(200, Forwarded(data))
      case UpstreamFailed => HttpResponse(500, ErrorBody("Failed to execute code"))
  }
}
