/** The file manager handlers under `/files`: a flat directory of named text files. Every
    handler validates its request before it looks at the directory. */
module FileManager {
  import opened JsValues
  import opened Maps
  import opened Model

  /** `GET /files/list`: every file name once, in whatever order the
      directory listing yields them. */
  method ListFiles(s: Store) returns (r: Response)
    ensures r.status == 200 && r.body.FileList?
    ensures forall name :: name in r.body.names <==> name in s.files
    ensures forall i, j :: 0 <= i < j < |r.body.names| ==> r.body.names[i] != r.body.names[j]
    ensures |r.body.names| == |s.files|
  {
    var names: seq<string> := [];
    var rest := s.files.Keys;
    while rest != {}
      invariant rest <= s.files.Keys
      invariant forall name :: name in names <==> name in s.files && name !in rest
      invariant forall i, j :: 0 <= i < j < |names| ==> names[i] != names[j]
      invariant |names| + |rest| == |s.files|
      decreases rest
    {
      var name :| name in rest;
      names := names + [name];
      rest := rest - {name};
    }
    r := Response(200, FileList(names));
  }

  /** `GET /files/read?filename=`. */
  function ReadFile(s: Store, filename: JsValue): (h: Handled)
    ensures h.next == s && h.deliveries == map[]
    ensures h.response.status == 400 <==> !Truthy(filename)
    ensures h.response.status == 404 <==> Truthy(filename) && filename.s !in s.files
    ensures h.response.Success() <==> Truthy(filename) && filename.s in s.files
    ensures !Truthy(filename) ==> h.response.body == Failed("Filename required")
    ensures Truthy(filename) && filename.s !in s.files ==> h.response.body == Failed("File not found")
    ensures Truthy(filename) && filename.s in s.files ==>
      h.response == Response(200, FileContent(s.files[filename.s]))
  {
    if !Truthy(filename) then
      Handled(Fail(400, "Filename required"), s, map[])
    else if filename.s !in s.files then
      Handled(Fail(404, "File not found"), s, map[])
    else
      Handled(Response(200, FileContent(s.files[filename.s])), s, map[])
  }

  /** `POST /files/write`: creates or replaces one file. The content may be
      the empty string; only an absent content is refused. */
  function WriteFile(s: Store, filename: JsValue, content: JsValue): (h: Handled)
    ensures h.deliveries == map[]
    ensures h.next.credentials == s.credentials && h.next.tickets == s.tickets && h.next.rooms == s.rooms
    ensures !Truthy(filename) || content.Undefined? ==>
      h.response == Fail(400, "Filename and content required") && h.next == s
    ensures Truthy(filename) && content.Str? ==>
      && h.response == Response(200, Done)
      && h.next.files.Keys == s.files.Keys + {filename.s}
      && h.next.files[filename.s] == content.s
      && AgreeExcept(s.files, h.next.files, filename.s)
  {
    if !Truthy(filename) || content.Undefined? then
      Handled(Fail(400, "Filename and content required"), s, map[])
    else
      Handled(Response(200, Done), s.(files := s.files[filename.s := content.s]), map[])
  }

  /** `POST /files/delete`: removes one existing file. */
  function DeleteFile(s: Store, filename: JsValue): (h: Handled)
    ensures h.deliveries == map[]
    ensures h.next.credentials == s.credentials && h.next.tickets == s.tickets && h.next.rooms == s.rooms
    ensures !Truthy(filename) ==> h.response == Fail(400, "Filename required") && h.next == s
    ensures Truthy(filename) && filename.s !in s.files ==>
      h.response == Fail(404, "File not found") && h.next == s
    ensures Truthy(filename) && filename.s in s.files ==>
      && h.response == Response(200, Done)
      && h.next.files.Keys == s.files.Keys - {filename.s}
      && AgreeExcept(s.files, h.next.files, filename.s)
  {
    if !Truthy(filename) then
      Handled(Fail(400, "Filename required"), s, map[])
    else if filename.s !in s.files then
      Handled(Fail(404, "File not found"), s, map[])
    else
      Handled(Response(200, Done), s.(files := s.files - {filename.s}), map[])
  }

  /** The name check comes first: a missing or empty name is answered 400 by
      read and delete whatever the directory holds. */
  lemma NameCheckPrecedesLookup(s: Store, s': Store, filename: JsValue)
    requires !Truthy(filename)
    ensures ReadFile(s, filename).response == ReadFile(s', filename).response
    ensures DeleteFile(s, filename).response == DeleteFile(s', filename).response
    ensures ReadFile(s, filename).response.status == 400
  {
  }

  /** Round trip: after a successful write, a read of the same name returns
      exactly the written content, the empty string included. */
  lemma ReadAfterWrite(s: Store, filename: string, content: string)
    requires filename != ""
    ensures ReadFile(WriteFile(s, Str(filename), Str(content)).next, Str(filename)).response
      == Response(200, FileContent(content))
  {
  }

  /** Empty content is a valid write; an empty name is not. */
  lemma EmptyContentAcceptedEmptyNameRejected(s: Store, filename: string, content: JsValue)
    requires filename != ""
    ensures WriteFile(s, Str(filename), Str("")).response.Success()
    ensures WriteFile(s, Str(""), content).response.status == 400
  {
  }

  /** Writing twice to the same name leaves the store as writing the last
      content alone would. */
  lemma LastWriteWins(s: Store, filename: JsValue, first: JsValue, second: string)
    ensures WriteFile(WriteFile(s, filename, first).next, filename, Str(second)).next
      == WriteFile(s, filename, Str(second)).next
  {
  }

  /** After a successful delete, reading the same name answers 404. */
  lemma ReadAfterDelete(s: Store, filename: JsValue)
    requires DeleteFile(s, filename).response.Success()
    ensures ReadFile(DeleteFile(s, filename).next, filename).response == Fail(404, "File not found")
  {
  }

  /** Write and delete touch only their own name: reading any other name
      answers as it did before. */
  lemma OtherFilesUnaffected(s: Store, filename: JsValue, content: JsValue, other: JsValue)
    requires other != filename
    ensures ReadFile(WriteFile(s, filename, content).next, other).response == ReadFile(s, other).response
    ensures ReadFile(DeleteFile(s, filename).next, other).response == ReadFile(s, other).response
  {
  }
}
