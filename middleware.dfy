/**
 * The request gates of the backend: `authenticate` reads a bearer token,
 * resolves it to an auth user and merges that user's profile over it;
 * `requireAdmin` lets a request through only for an admin.
 */
module Middleware {
  import opened Wrappers
  import opened Domain
  import opened Text

  /** A field value of a user record. */
  datatype Field = Str(s: string) | Num(n: real)

  /** A user record: field name to value. */
  type Record = map<string, Field>

  /** What resolving a token yields: an exception, an error, no user, or the auth user. */
  datatype TokenLookup = Threw | Error | NoUser | Found(id: UserId, fields: Record)

  /** The outcome of `authenticate`: a 401 reply, or `next()` with `req.user` set. */
  datatype AuthOutcome = Deny(status: int, message: string) | Proceed(user: Record)

  const BearerPrefix: string := "Bearer "
  const MsgNoToken: string := "No token provided"
  const MsgBadToken: string := "Invalid or expired token"
  const MsgAuthFailed: string := "Authentication failed"
  const MsgAdminOnly: string := "Admin access required"

  /** A header that starts with "Bearer " splits into at least two fields on spaces. */
  lemma BearerHeaderSplits(header: string)
    requires BearerPrefix <= header
    ensures |Split(header, ' ')| >= 2
    ensures Split(header, ' ')[1] == Split(header[|BearerPrefix|..], ' ')[0]
  {
    var rest := header[|BearerPrefix|..];
    assert header == "Bearer" + [' '] + rest;
    SplitAfterPrefix("Bearer", rest, ' ');
  }

  /** The token: the second field of the header split on single spaces. */
  function BearerToken(header: string): (t: string)
    requires BearerPrefix <= header
    ensures ' ' !in t
    ensures t <= header[|BearerPrefix|..]
  {
    BearerHeaderSplits(header);
    SplitFieldsFree(header, ' ');
    SplitFirstIsPrefix(header[|BearerPrefix|..], ' ');
    Split(header, ' ')[1]
  }

  /** "Bearer t" carries the token t whenever t has no space in it. */
  lemma BearerTokenRoundTrip(t: string)
    requires ' ' !in t
    ensures BearerToken(BearerPrefix + t) == t
  {
    var header := BearerPrefix + t;
    BearerHeaderSplits(header);
    assert header[|BearerPrefix|..] == t;
    SplitWithoutSeparator(t, ' ');
  }

  /** `{ ...a, ...b }`: the fields of a, overridden by those of b. */
  function Merge(a: Record, b: Record): (r: Record)
    ensures r.Keys == a.Keys + b.Keys
    ensures forall k :: k in b ==> r[k] == b[k]
    ensures forall k :: k in a && k !in b ==> r[k] == a[k]
  {
    a + b
  }

  /**
   * `authenticate`: the header must start with "Bearer "; the token is
   * resolved by getUser; the resulting user is the auth user's fields with
   * the stored profile (absent when no profile row) spread over them.
   */
  function Authenticate(header: Option<string>, getUser: string -> TokenLookup, profiles: map<UserId, Record>): (out: AuthOutcome)
    ensures out.Deny? ==> out.status == 401
    ensures out.Deny? && out.message == MsgNoToken <==> header.None? || !(BearerPrefix <= header.value)
  {
    if header.None? || !(BearerPrefix <= header.value) then Deny(401, MsgNoToken)
    else
      match getUser(BearerToken(header.value))
      case Threw => Deny(401, MsgAuthFailed)
      case Error => Deny(401, MsgBadToken)
      case NoUser => Deny(401, MsgBadToken)
      case Found(id, fields) =>
        var profile := if id in profiles then profiles[id] else map[];
        Proceed(Merge(fields, profile))
  }

  /** The request proceeds exactly when the token resolves to a user, and then carries that user's fields under the profile's. */
  lemma AuthenticateOutcomes(header: Option<string>, getUser: string -> TokenLookup, profiles: map<UserId, Record>)
    ensures var out := Authenticate(header, getUser, profiles);
      out.Proceed? <==> header.Some? && BearerPrefix <= header.value && getUser(BearerToken(header.value)).Found?
    ensures var out := Authenticate(header, getUser, profiles);
      header.Some? && BearerPrefix <= header.value ==>
        match getUser(BearerToken(header.value))
        case Threw => out == Deny(401, MsgAuthFailed)
        case Error => out == Deny(401, MsgBadToken)
        case NoUser => out == Deny(401, MsgBadToken)
        case Found(id, fields) =>
          out.Proceed?
          && (id in profiles ==> forall k :: k in profiles[id] ==> k in out.user && out.user[k] == profiles[id][k])
          && forall k :: k in fields && (id !in profiles || k !in profiles[id]) ==> k in out.user && out.user[k] == fields[k]
  {
  }

  /** The outcome of `requireAdmin`: `next()`, or a 403 reply. */
  datatype AdminGate = Pass | Forbid(status: int, message: string)

  /** `requireAdmin`: only a present user whose role is "admin" passes. */
  function RequireAdmin(user: Option<Record>): (g: AdminGate)
    ensures g.Pass? <==> user.Some? && "role" in user.value && user.value["role"] == Str("admin")
    ensures g.Forbid? ==> g == Forbid(403, MsgAdminOnly)
  {
    if user.None? || "role" !in user.value || user.value["role"] != Str("admin") then Forbid(403, MsgAdminOnly)
    else Pass
  }

  /**
   * After authentication, the stored profile's role decides admin access,
   * whatever role field the auth user itself carries.
   */
  lemma ProfileRoleDecides(header: string, getUser: string -> TokenLookup, profiles: map<UserId, Record>, id: UserId, fields: Record)
    requires BearerPrefix <= header
    requires getUser(BearerToken(header)) == Found(id, fields)
    requires id in profiles && "role" in profiles[id]
    ensures Authenticate(Some(header), getUser, profiles).Proceed?
    ensures RequireAdmin(Some(Authenticate(Some(header), getUser, profiles).user)).Pass?
            <==> profiles[id]["role"] == Str("admin")
  {
  }
}
