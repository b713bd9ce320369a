/**
 Actions, their families, and the `skip(...)` state of the resolver.
 */
module Actions {

  /** Every action family, in the language's own order. */
  datatype Family =
    | Host | Upstream | Direct | Mock | MapRemote | Status | Redirect
    | ReqHeader | ResHeader | ResStatus | ReqMethod | ReqCookie | ResCookie
    | ReqUa | ReqReferer | ReqAuth | ReqForwarded | ReqType | ReqCharset
    | ResCors | ResType | ResCharset | ResMerge | ResTrailer | Attachment
    | Cache | Tls | UrlRewrite | UrlQuery | DeleteFamily
    | ReqBodySet | ReqBodyPrepend | ReqBodyAppend | ReqBodyReplace
    | ResBodySet | ResBodyPrepend | ResBodyAppend | ResBodyReplace
    | Inject | DelayReq | DelayRes | ThrottleReq | ThrottleRes
    | Bypass | Hide | Tag | SkipFamily

  const ALL_FAMILIES: set<Family> := set f: Family | true :: f

  /** Families that keep every applicable action. */
  predicate IsStackable(f: Family) {
    || f.ReqHeader? || f.ResHeader? || f.ReqCookie? || f.ResCookie?
    || f.ResMerge? || f.ResTrailer? || f.UrlQuery? || f.DeleteFamily?
    || f.ReqBodySet? || f.ReqBodyPrepend? || f.ReqBodyAppend? || f.ReqBodyReplace?
    || f.ResBodySet? || f.ResBodyPrepend? || f.ResBodyAppend? || f.ResBodyReplace?
    || f.Inject? || f.Tag? || f.SkipFamily?
  }

  /** Families that keep only the first applicable action. */
  predicate IsSingle(f: Family) {
    !IsStackable(f)
  }

  datatype BodyOp =
    | Set(value: string)
    | Prepend(value: string)
    | Append(value: string)
    | Replace(pattern: string, replacement: string)

  /** Deletions, separating the two that touch the request body from the rest. */
  datatype DeleteOp =
    | DeleteReqBody
    | DeleteReqBodyPath(path: seq<string>)
    | DeleteOther(target: string)
  {
    predicate TouchesRequestBody() {
      DeleteReqBody? || DeleteReqBodyPath?
    }
  }

  /**
   An action. The resolver looks inside deletions, request-body rewrites and
   `skip(...)`; every other action is its family and an uninterpreted payload.
   */
  datatype Action =
    | Delete(ops: seq<DeleteOp>)
    | ReqBody(op: BodyOp)
    | Skip(families: set<Family>)
    | Plain(kind: Family, payload: string)
  {
    function Family(): Family {
      match this
      case Delete(_) => DeleteFamily
      case ReqBody(Set(_)) => ReqBodySet
      case ReqBody(Prepend(_)) => ReqBodyPrepend
      case ReqBody(Append(_)) => ReqBodyAppend
      case ReqBody(Replace(_, _)) => ReqBodyReplace
      case Skip(_) => SkipFamily
      case Plain(kind, _) => kind
    }

    /** Whether this action suppresses later actions of family `f`. */
    predicate Covers(f: Family) {
      Skip? && (families == {} || f in families)
    }
  }

  /** The suppressed families after one more action has been output. */
  function AfterSkip(suppressed: set<Family>, a: Action): set<Family> {
    if !a.Skip? then suppressed
    else if a.families == {} then ALL_FAMILIES
    else suppressed + a.families
  }

  lemma AfterSkipCovers(suppressed: set<Family>, a: Action, f: Family)
    ensures f in AfterSkip(suppressed, a) <==> f in suppressed || a.Covers(f)
  {
  }

  /** The families that the `skip(...)` actions output so far hold back. */
  class SkipState {
    var families: set<Family>

    constructor ()
      ensures families == {}
    {
      families := {};
    }

    predicate Suppresses(f: Family)
      reads this
    {
      f in families
    }

    method Observe(a: Action)
      modifies this
      ensures families == AfterSkip(old(families), a)
      ensures forall f :: f in families <==> f in old(families) || a.Covers(f)
    {
      if a.Skip? {
        families := if a.families == {} then ALL_FAMILIES else families + a.families;
      }
    }
  }

  /** Whether running the action needs the request body. */
  predicate RequiresRequestBody(a: Action) {
    || a.ReqBody?
    || (a.Delete? && exists i :: 0 <= i < |a.ops| && a.ops[i].TouchesRequestBody())
  }

  function WithoutBodyDeletes(ops: seq<DeleteOp>): (kept: seq<DeleteOp>)
    ensures forall op :: op in kept <==> op in ops && !op.TouchesRequestBody()
    ensures (forall op :: op in ops ==> !op.TouchesRequestBody()) ==> kept == ops
  {
    if ops == [] then []
    else (if ops[0].TouchesRequestBody() then [] else [ops[0]]) + WithoutBodyDeletes(ops[1..])
  }
}
