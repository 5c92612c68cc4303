/** Shared vocabulary of the marketplace model: optional values, the reply
    a request handler produces, the authenticated requester, and the
    JavaScript `x || old` idiom the controllers use to merge request fields. */
module Common {

  /** A value that may be absent (`undefined`/`null` in the source). */
  datatype Option<+T> = None | Some(value: T) {
    function GetOr(default: T): T {
      match this
      case Some(v) => v
      case None => default
    }
  }

  /** Database primary keys: auto-incremented integers starting at 1. */
  type Id = x: nat | x > 0 witness 1

  /** The HTTP status family a handler answers with, and its payload.
      Every error carries the message text the controller sends. */
  datatype Reply<+T> =
    | Ok(value: T)                 // 200 / 201
    | BadRequest(message: string)  // 400
    | Unauthorized(message: string) // 401
    | Forbidden(message: string)   // 403
    | NotFound(message: string)    // 404
    | ServerError(message: string) // 500, from the `catch` of every handler

  /** The outcome of a form's client-side validation: the first error
      message it sets, or success. */
  datatype Verdict = Pass | Fail(message: string)

  /** The role string that grants administrator rights. */
  const AdminRole: string := "admin"

  /** What the `authorize("admin")` route guard answers to anyone else; its
      exact text is not part of this model. */
  const AdminOnly: string := "Forbidden"

  /** `req.user` as attached by the authentication middleware. */
  datatype Requester = Requester(id: Id, role: string) {
    predicate IsAdmin() { role == AdminRole }
  }

  /** The one authorization rule shared by item, user and message handlers:
      the requester owns the resource or is an administrator. */
  predicate OwnerOrAdmin(req: Requester, ownerId: Id) {
    ownerId == req.id || req.IsAdmin()
  }

  /** JavaScript truthiness of an optional string field. */
  predicate Truthy(s: Option<string>) {
    s.Some? && s.value != ""
  }

  /** `supplied || previous` for a required text column. */
  function Or(supplied: Option<string>, previous: string): (r: string)
    ensures Truthy(supplied) ==> r == supplied.value
    ensures !Truthy(supplied) ==> r == previous
  {
    if Truthy(supplied) then supplied.value else previous
  }

  /** `supplied || previous` for a nullable text column. */
  function OrOpt(supplied: Option<string>, previous: Option<string>): (r: Option<string>)
    ensures Truthy(supplied) ==> r == supplied
    ensures !Truthy(supplied) ==> r == previous
  {
    if Truthy(supplied) then supplied else previous
  }

  /** The names of a list of name/value pairs, in order. */
  function Keys<V>(p: seq<(string, V)>): (ks: seq<string>)
    ensures |ks| == |p| && forall k :: 0 <= k < |p| ==> ks[k] == p[k].0
  {
    seq(|p|, k requires 0 <= k < |p| => p[k].0)
  }
}
