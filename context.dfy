/** The per-request context: the identity of the caller, read from the
    `Authorization` header. Verifying the token (signature, expiry, secret) is a
    foreign call and is a parameter here; its outcome is either a failure
    (the library throws), a payload that is not an object, or an object payload. */
module RequestContext {
  import opened Wrappers
  import opened Text

  datatype Identity = Identity(id: int, email: string, name: string)

  datatype Decoded = Rejected | NonObject | Payload(id: int, email: string, name: string)

  const BearerPrefix := "Bearer "

  /** `req.headers.authorization?.replace("Bearer ", "")` */
  function BearerToken(header: Option<string>): Option<string> {
    match header
    case None => None
    case Some(h) => Some(ReplaceFirst(h, BearerPrefix, ""))
  }

  /** The `user` field of the context. A token that is absent or empty is not
      verified; a verification failure or a non-object payload leaves the
      request anonymous instead of failing it; otherwise the identity is the
      payload's id, email and name. */
  function ContextUser(header: Option<string>, verify: string -> Decoded): (user: Option<Identity>)
    ensures user.Some? <==>
              && header.Some?
              && BearerToken(header).value != ""
              && verify(BearerToken(header).value).Payload?
    ensures user.Some? ==>
              var d := verify(BearerToken(header).value);
              user.value == Identity(d.id, d.email, d.name)
  {
    var token := BearerToken(header);
    if token.Some? && token.value != "" then
      match verify(token.value)
      case Payload(id, email, name) => Some(Identity(id, email, name))
      case _ => None
    else None
  }

  /** A request without the header is anonymous, and is not an error. */
  lemma NoHeaderIsAnonymous(verify: string -> Decoded)
    ensures ContextUser(None, verify) == None
  {
  }

  /** `Bearer <t>` carries the token `t`; the header `Bearer ` alone carries the
      empty token and so no identity, whatever the verifier would say. */
  lemma {:induction false} BearerHeader(t: string, verify: string -> Decoded)
    ensures BearerToken(Some(BearerPrefix + t)) == Some(t)
    ensures t == "" ==> ContextUser(Some(BearerPrefix + t), verify) == None
  {
    ReplaceFirstAtStart(BearerPrefix, t);
  }

  /** Only the first "Bearer " is removed, wherever it stands: a header
      `pre + "Bearer " + post` in which no earlier "Bearer " starts passes on
      `pre + post` (so "Token Bearer x" becomes "Token x"). */
  lemma {:induction false} OnlyFirstBearerRemoved(pre: string, post: string)
    requires forall j | 0 <= j < |pre| :: !OccursAt(pre + BearerPrefix + post, BearerPrefix, j)
    ensures BearerToken(Some(pre + BearerPrefix + post)) == Some(pre + post)
  {
    var h := pre + BearerPrefix + post;
    assert OccursAt(h, BearerPrefix, |pre|) by {
      assert h[|pre|..|pre| + |BearerPrefix|] == BearerPrefix;
    }
    var i := IndexOf(h, BearerPrefix).value;
    assert i == |pre|;
    assert h[..i] == pre;
    assert h[i + |BearerPrefix|..] == post;
    assert ReplaceFirst(h, BearerPrefix, "") == pre + "" + post;
    assert pre + "" + post == pre + post;
  }

  /** A rejected token and a non-object payload both leave the request anonymous. */
  lemma VerificationFailureIsAnonymous(header: Option<string>, verify: string -> Decoded)
    requires header.Some?
    requires verify(BearerToken(header).value) == Rejected || verify(BearerToken(header).value) == NonObject
    ensures ContextUser(header, verify) == None
  {
  }
}
