/**
 * The repository-update webhook: an ordered chain of guards (configured
 * secret, method, body, signature, JSON shape) followed by a branch check
 * that decides whether `git pull` runs.
 */
module Webhook {
  import opened Wrappers
  import opened GoStrings
  import Bytes
  import Hex
  import Http

  /** An HMAC-SHA256 value: 32 bytes. */
  type Digest = d: seq<Bytes.byte> | |d| == 32 witness seq(32, _ => 0 as Bytes.byte)

  /** HMAC-SHA256 keyed by the bytes of the secret, over a body. Opaque: supplied by the caller. */
  type Hmac = (string, seq<Bytes.byte>) -> Digest

  /** JSON decoding of the body into `{ref}`: the `ref` field, "" when the field is absent; None when decoding fails. */
  type RefDecoder = seq<Bytes.byte> -> Option<string>

  const SignaturePrefix := "sha256="
  const TrackedRef := "refs/heads/main"

  /**
   * An inbound delivery: the HTTP method, the body (None when reading it failed)
   * and the X-Hub-Signature-256 header value ("" when absent).
   */
  datatype Request = Request(verb: string, body: Option<seq<Bytes.byte>>, signature: string)

  /** The status and text written back, and whether `git pull` was started. */
  datatype Response = Response(status: int, text: string, pulled: bool)

  /**
   * validateSignature: the header must be "sha256=" followed by the
   * lower-case hex of the HMAC of the body under the secret. The comparison
   * is on the bytes of both texts; its constant-time property is not modelled.
   */
  function ValidateSignature(secret: string, body: seq<Bytes.byte>, signature: string, hmac: Hmac): (ok: bool)
    ensures ok ==> |signature| == |SignaturePrefix| + 64 && HasPrefix(signature, SignaturePrefix)
    ensures ok ==> forall i :: |SignaturePrefix| <= i < |signature| ==> Hex.IsLowerHexDigit(signature[i])
  {
    signature == SignaturePrefix + Hex.Encode(hmac(secret, body))
  }

  /**
   * A signature is valid exactly when it carries the prefix and the rest
   * decodes, as lower-case hex, to the HMAC of the body.
   */
  lemma SignatureCharacterization(secret: string, body: seq<Bytes.byte>, signature: string, hmac: Hmac)
    ensures ValidateSignature(secret, body, signature, hmac)
        <==> HasPrefix(signature, SignaturePrefix)
             && Hex.Decode(signature[|SignaturePrefix|..]) == Some(hmac(secret, body))
  {
    var mac := hmac(secret, body);
    if ValidateSignature(secret, body, signature, hmac) {
      assert signature[|SignaturePrefix|..] == Hex.Encode(mac);
      Hex.DecodeEncode(mac);
    }
    if HasPrefix(signature, SignaturePrefix) && Hex.Decode(signature[|SignaturePrefix|..]) == Some(mac) {
      Hex.EncodeDecode(signature[|SignaturePrefix|..]);
      assert signature == signature[..|SignaturePrefix|] + signature[|SignaturePrefix|..];
    }
  }

  /** Different bodies or secrets whose HMACs differ cannot share a valid signature. */
  lemma SignatureDeterminesDigest(secret: string, body: seq<Bytes.byte>, secret': string, body': seq<Bytes.byte>,
                                  signature: string, hmac: Hmac)
    requires ValidateSignature(secret, body, signature, hmac)
    requires ValidateSignature(secret', body', signature, hmac)
    ensures hmac(secret, body) == hmac(secret', body')
  {
    var p := SignaturePrefix;
    assert Hex.Encode(hmac(secret, body)) == signature[|p|..];
    assert Hex.Encode(hmac(secret', body')) == signature[|p|..];
    Hex.EncodeInjective(hmac(secret, body), hmac(secret', body'));
  }

  /** Every guard before the branch check passes: secret configured, POST, body read, signature valid. */
  predicate Authenticated(secret: string, req: Request, hmac: Hmac) {
    && secret != ""
    && req.verb == Http.MethodPost
    && req.body.Some?
    && req.signature != ""
    && ValidateSignature(secret, req.body.value, req.signature, hmac)
  }

  /** The last step: a pull for the tracked branch, acknowledgement without action for any other. */
  function Dispatch(ref: string, pullOk: bool): (r: Response)
    ensures r.pulled <==> ref == TrackedRef
    ensures r.status == Http.StatusOK <==> ref == TrackedRef && pullOk
    ensures r.status == Http.StatusAccepted <==> ref != TrackedRef
    ensures ref == TrackedRef && !pullOk ==> r.status == Http.StatusInternalServerError
    ensures r.status == Http.StatusOK ==> r.text == "OK"
    ensures r.status == Http.StatusInternalServerError ==> r.text == "failed to pull" + "\n"
    ensures r.status == Http.StatusAccepted ==> r.text == "Ignorado"
  {
    if ref == TrackedRef then
      if pullOk then Response(Http.StatusOK, "OK", true)
      else Response(Http.StatusInternalServerError, "failed to pull\n", true)
    else Response(Http.StatusAccepted, "Ignorado", false)
  }

  /**
   * WebHookHandler. `secret` is GITHUB_WEBHOOK_SECRET ("" when unset);
   * `pullOk` is whether `git pull` would exit successfully if started.
   */
  function HandleWebhook(secret: string, req: Request, hmac: Hmac, decodeRef: RefDecoder, pullOk: bool): (r: Response)
    ensures r.status in {Http.StatusInternalServerError, Http.StatusMethodNotAllowed, Http.StatusUnauthorized,
                         Http.StatusBadRequest, Http.StatusOK, Http.StatusAccepted}
    ensures secret == "" ==> r == Response(Http.StatusInternalServerError, "invalid config\n", false)
    ensures secret != "" && req.verb != Http.MethodPost ==> r.status == Http.StatusMethodNotAllowed
    ensures r.status == Http.StatusUnauthorized
        <==> secret != "" && req.verb == Http.MethodPost && req.body.Some? && !Authenticated(secret, req, hmac)
    ensures r.status == Http.StatusBadRequest
        <==> Authenticated(secret, req, hmac) && decodeRef(req.body.value).None?
    ensures r.pulled <==> Authenticated(secret, req, hmac) && decodeRef(req.body.value) == Some(TrackedRef)
    ensures r.status == Http.StatusOK <==> r.pulled && pullOk
    ensures r.status == Http.StatusAccepted
        <==> Authenticated(secret, req, hmac) && decodeRef(req.body.value).Some?
             && decodeRef(req.body.value).value != TrackedRef
  {
    if secret == "" then
      Response(Http.StatusInternalServerError, "invalid config\n", false)
    else if req.verb != Http.MethodPost then
      Response(Http.StatusMethodNotAllowed, "Method not allowed\n", false)
    else if req.body.None? then
      Response(Http.StatusInternalServerError, "body reading error\n", false)
    else if req.signature == "" || !ValidateSignature(secret, req.body.value, req.signature, hmac) then
      Response(Http.StatusUnauthorized, "invalid signature\n", false)
    else
      match decodeRef(req.body.value)
      case None => Response(Http.StatusBadRequest, "JSON Decoding Error\n", false)
      case Some(ref) => Dispatch(ref, pullOk)
  }

  /** The empty-header test in the handler is subsumed by the signature check itself. */
  lemma EmptySignatureNeverValid(secret: string, body: seq<Bytes.byte>, hmac: Hmac)
    ensures !ValidateSignature(secret, body, "", hmac)
  {
  }

  /** One guard of the chain: whether it holds, and the status and message when it does not. */
  datatype Guard = Guard(holds: bool, status: int, message: string)

  /** The index of the first guard that does not hold, if any. */
  function FirstFailing(gs: seq<Guard>): (r: Option<nat>)
    ensures r.Some? ==> r.value < |gs| && !gs[r.value].holds
    ensures r.Some? ==> forall j :: 0 <= j < r.value ==> gs[j].holds
    ensures r.None? ==> forall j :: 0 <= j < |gs| ==> gs[j].holds
    decreases |gs|
  {
    if gs == [] then None
    else if !gs[0].holds then Some(0)
    else match FirstFailing(gs[1..])
      case None => None
      case Some(i) => Some(i + 1)
  }

  /** The handler's guards in the order it checks them. */
  function Guards(secret: string, req: Request, hmac: Hmac, decodeRef: RefDecoder): seq<Guard> {
    var body := if req.body.Some? then req.body.value else [];
    [ Guard(secret != "", Http.StatusInternalServerError, "invalid config"),
      Guard(req.verb == Http.MethodPost, Http.StatusMethodNotAllowed, "Method not allowed"),
      Guard(req.body.Some?, Http.StatusInternalServerError, "body reading error"),
      Guard(req.signature != "" && ValidateSignature(secret, body, req.signature, hmac),
            Http.StatusUnauthorized, "invalid signature"),
      Guard(decodeRef(body).Some?, Http.StatusBadRequest, "JSON Decoding Error") ]
  }

  /**
   * The first failing guard alone decides the reply, written as http.Error
   * writes it, and no pull happens; when every guard holds, the branch
   * check decides.
   */
  lemma GuardChainDecides(secret: string, req: Request, hmac: Hmac, decodeRef: RefDecoder, pullOk: bool)
    ensures var gs := Guards(secret, req, hmac, decodeRef);
            match FirstFailing(gs)
            case Some(i) =>
              HandleWebhook(secret, req, hmac, decodeRef, pullOk) == Response(gs[i].status, gs[i].message + "\n", false)
            case None =>
              && req.body.Some?
              && decodeRef(req.body.value).Some?
              && HandleWebhook(secret, req, hmac, decodeRef, pullOk) == Dispatch(decodeRef(req.body.value).value, pullOk)
  {
    var gs := Guards(secret, req, hmac, decodeRef);
    var first := FirstFailing(gs);
    if first.Some? {
      var i := first.value;
      if i > 0 { assert gs[0].holds; }
      if i > 1 { assert gs[1].holds; }
      if i > 2 { assert gs[2].holds; }
      if i > 3 { assert gs[3].holds; }
    } else {
      assert gs[0].holds && gs[1].holds && gs[2].holds && gs[3].holds && gs[4].holds;
    }
  }
}
