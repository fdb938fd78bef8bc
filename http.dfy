/** What a route handler answers: a status code and a body. */
module Http {
  import opened Common

  datatype Body =
    | JsonBody(json: Json)
    /** The empty body of a 204 answer. */
    | NoContent
    /** send_file: the stored bytes, offered under the file's name. */
    | FileBody(content: Bytes, downloadName: string)
    | Redirect(location: string)
    /** An exception escaped the handler (a failed commit) and Flask answered 500. */
    | InternalError

  datatype Reply = Reply(status: int, body: Body)

  function Ok(j: Json): Reply {
    Reply(200, JsonBody(j))
  }

  function Created(j: Json): Reply {
    Reply(201, JsonBody(j))
  }

  /** `{"type": "error", "code": code, "message": message}` with its status. */
  function Error(status: int, code: string, message: string): Reply {
    Reply(status, JsonBody(Obj(map["type" := Str("error"), "code" := Str(code), "message" := Str(message)])))
  }

  function NotFound(message: string): Reply {
    Error(404, "not_found", message)
  }

  const ServerError: Reply := Reply(500, InternalError)

  /** `{"entries": entries, "total_count": len(entries)}`, the listing document. */
  function Page(entries: seq<Json>): (j: Json)
    ensures Member(j, "entries") == Some(Arr(entries))
    ensures Member(j, "total_count") == Some(Int(|entries|))
  {
    Obj(map["entries" := Arr(entries), "total_count" := Int(|entries|)])
  }
}
