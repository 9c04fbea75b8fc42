/** The cross-origin policy of the API server: the `origin` callback handed
    to the CORS middleware, which admits a request with no Origin header and
    one whose Origin is on a fixed list of three deployments. */
module Cors {
  import opened Js

  const AllowedOrigins: seq<string> := [
    "https://lakshmi-project-frontend.vercel.app",
    "https://lakshmi-project-admin.vercel.app",
    "https://lakshmi-project-backend.vercel.app"
  ]

  const RejectMessage := "Not allowed by CORS"

  /** What the callback reports: `callback(null, true)` or
      `callback(new Error(...))`. */
  datatype Decision = Allow | Deny(error: string)

  /** `Array.prototype.includes` on strings: a scan comparing each element
      with `===`, which for strings is exact, case-sensitive equality. */
  method Includes(list: seq<string>, x: string) returns (found: bool)
    ensures found <==> x in list
  {
    var i := 0;
    while i < |list|
      invariant 0 <= i <= |list|
      invariant forall j :: 0 <= j < i ==> list[j] != x
    {
      if list[i] == x {
        return true;
      }
      i := i + 1;
    }
    return false;
  }

  /** The decision for a request's Origin header (`Undefined` when absent). An
      absent or empty origin passes the `!origin` test; any other origin is
      allowed exactly when it is one of the listed strings, and is otherwise
      denied with the fixed error. */
  function Decide(origin: Maybe<string>): (d: Decision)
    ensures d.Allow? <==> origin.Undefined? || origin.value == "" || origin.value in AllowedOrigins
    ensures d.Deny? ==> d.error == RejectMessage
  {
    if Falsy(origin) || origin.value in AllowedOrigins then Allow else Deny(RejectMessage)
  }

  /** The same decision computed with the scan, as the callback does it. */
  method OriginCallback(origin: Maybe<string>) returns (d: Decision)
    ensures d == Decide(origin)
  {
    if Falsy(origin) {
      return Allow;
    }
    var listed := Includes(AllowedOrigins, origin.value);
    d := if listed then Allow else Deny(RejectMessage);
  }

  /** A request as the middleware sees it. */
  datatype Request = Request(verb: string, origin: Maybe<string>, headers: seq<(string, string)>)

  /** The callback's decision for a whole request. The middleware calls the
      callback with the Origin header and nothing else (its signature is
      `(origin, callback)`), so by construction the method and the other
      headers cannot enter the decision; this function records that. */
  function DecideRequest(r: Request): Decision
  {
    Decide(r.origin)
  }

  /** Requests that differ only in method or other headers are treated
      alike. */
  lemma DecisionIgnoresMethodAndHeaders(r1: Request, r2: Request)
    requires r1.origin == r2.origin
    ensures DecideRequest(r1) == DecideRequest(r2)
  {
  }

  /** No listed origin ends in '/'. */
  lemma ListedOriginsNoTrailingSlash(i: nat)
    requires i < |AllowedOrigins|
    ensures |AllowedOrigins[i]| > 0 && AllowedOrigins[i][|AllowedOrigins[i]| - 1] != '/'
  {
  }

  /** Matching is exact: a listed origin with a trailing slash is denied. */
  lemma TrailingSlashDenied(o: string)
    requires o in AllowedOrigins
    ensures Decide(Defined(o + "/")).Deny?
  {
    forall i | 0 <= i < |AllowedOrigins| ensures AllowedOrigins[i] != o + "/" {
      ListedOriginsNoTrailingSlash(i);
      assert (o + "/")[|o|] == '/';
    }
  }

  /** Matching is case-sensitive: the production origin spelt with an
      upper-case scheme is denied. */
  lemma UpperCaseSchemeDenied()
    ensures Decide(Defined("HTTPS://lakshmi-project-frontend.vercel.app")).Deny?
  {
    var o := "HTTPS://lakshmi-project-frontend.vercel.app";
    forall i | 0 <= i < |AllowedOrigins| ensures AllowedOrigins[i] != o {
      assert AllowedOrigins[i][0] == 'h';
    }
  }
}
