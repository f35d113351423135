/** JSON values as they travel between the uploader and the authorization route,
    and the small Option type both sides use. */
module Json {

  datatype Option<+T> = None | Some(value: T)

  /** A parsed JSON document. Numbers are kept as reals: the route only passes
      them through. Object member order is irrelevant to every consumer here,
      and a repeated member name keeps its last value, as JSON.parse does. */
  datatype Json =
    | JNull
    | JBool(b: bool)
    | JNumber(n: real)
    | JString(s: string)
    | JArray(items: seq<Json>)
    | JObject(members: map<string, Json>)

  /** What `await request.json()` produces: a value, or a thrown SyntaxError. */
  type Body = Option<Json>

  /** An HTTP response as NextResponse.json builds it: a status and a JSON body. */
  datatype Reply = Reply(status: int, body: Json) {
    /** `response.ok` on the client side of fetch. */
    predicate Ok() { 200 <= status <= 299 }
  }

  /** JavaScript's `value.name` on a parsed body: reading a member of `null`
      throws a TypeError, every other non-object has no such member. */
  datatype Member = Threw | Undefined | Defined(value: Json)

  function GetMember(body: Json, name: string): (m: Member)
    ensures m.Threw? <==> body.JNull?
    ensures m.Defined? <==> body.JObject? && name in body.members
    ensures m.Defined? ==> m.value == body.members[name]
  {
    match body
    case JNull => Threw
    case JObject(members) => if name in members then Defined(members[name]) else Undefined
    case _ => Undefined
  }
}
