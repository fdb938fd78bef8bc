/** The sign-request handlers. Signers and output files are built from the request, then
    stored with the record as JSON lists. */
module SignRequestRoutes {
  import opened Common
  import opened Tables
  import opened Models
  import opened Storage
  import opened Http

  /** One entry of the request's "signers" list. */
  datatype SignerInput = SignerInput(email: Option<string>, role: Option<string>)

  const EmbedBase: string := "https://box-mock.local/sign/"

  /** The signing link of one signer: the request id, then the signer's own token. */
  function EmbedUrl(requestId: string, token: string): string {
    EmbedBase + requestId + "/" + token
  }

  /** Signers of one request get distinct links exactly when their tokens differ. */
  lemma EmbedUrlsDistinct(requestId: string, t1: string, t2: string)
    ensures EmbedUrl(requestId, t1) == EmbedUrl(requestId, t2) <==> t1 == t2
  {
    var k := |EmbedBase + requestId + "/"|;
    if EmbedUrl(requestId, t1) == EmbedUrl(requestId, t2) {
      assert EmbedUrl(requestId, t1)[k..] == t1;
      assert EmbedUrl(requestId, t2)[k..] == t2;
    }
  }

  /** The signers of a new request; the role defaults to "signer" and each signer gets
      the next token. */
  function Signers(inputs: seq<SignerInput>, requestId: string, tokens: seq<string>): (r: seq<Signer>)
    requires |tokens| == |inputs|
    ensures |r| == |inputs|
    ensures forall i :: 0 <= i < |inputs| ==>
              && r[i].email == inputs[i].email
              && r[i].role == inputs[i].role.GetOr("signer")
              && r[i].embedUrl == EmbedUrl(requestId, tokens[i])
  {
    seq(|inputs|, i requires 0 <= i < |inputs| =>
      Signer(inputs[i].email, inputs[i].role.GetOr("signer"), EmbedUrl(requestId, tokens[i])))
  }

  /** Distinct tokens give every signer of a request a link of its own. */
  lemma SignerLinksDistinct(inputs: seq<SignerInput>, requestId: string, tokens: seq<string>)
    requires |tokens| == |inputs|
    requires forall i, j :: 0 <= i < j < |tokens| ==> tokens[i] != tokens[j]
    ensures var ss := Signers(inputs, requestId, tokens);
            forall i, j :: 0 <= i < j < |ss| ==> ss[i].embedUrl != ss[j].embedUrl
  {
    var ss := Signers(inputs, requestId, tokens);
    forall i, j | 0 <= i < j < |ss| ensures ss[i].embedUrl != ss[j].embedUrl {
      EmbedUrlsDistinct(requestId, tokens[i], tokens[j]);
    }
  }

  /** The output document of a source file: "signed_document_<id>.pdf", with a fresh id
      standing in when the source names none. */
  function SignedFiles(sources: seq<Option<string>>, fileIds: seq<string>, fallbacks: seq<string>): (r: seq<SignedFile>)
    requires |fileIds| == |sources| && |fallbacks| == |sources|
    ensures |r| == |sources|
    ensures forall i :: 0 <= i < |sources| ==>
              && r[i].id == fileIds[i]
              && r[i].name == "signed_document_" + sources[i].GetOr(fallbacks[i]) + ".pdf"
  {
    seq(|sources|, i requires 0 <= i < |sources| =>
      SignedFile(fileIds[i], "signed_document_" + sources[i].GetOr(fallbacks[i]) + ".pdf"))
  }

  /** POST /sign_requests. The record starts in status "created" with the signer and
      output-file lists as built, the parent folder id and the redirect URL as given. */
  method CreateSignRequest(store: Store, signerInputs: seq<SignerInput>, sources: seq<Option<string>>,
                           parentFolderId: Option<string>, redirectUrl: Option<string>,
                           newId: string, tokens: seq<string>, fileIds: seq<string>, fallbacks: seq<string>)
      returns (r: Reply)
    requires newId !in Keys(store.signRequests, SignRequestKey)
    requires |tokens| == |signerInputs|
    requires |fileIds| == |sources| && |fallbacks| == |sources|
    modifies store`signRequests
    ensures var sr := SignRequest(newId, DefaultStatus, parentFolderId, redirectUrl,
                                  Some(Signers(signerInputs, newId, tokens)),
                                  Some(SignedFiles(sources, fileIds, fallbacks)));
            && store.signRequests == old(store.signRequests) + [sr]
            && r == Created(SignRequestToDict(sr))
    ensures r.body.JsonBody?
    ensures var read := SignRequestFromDict(r.body.json);
            && read.Some? && read.value.id == newId && read.value.status == "created"
            && read.value.signers == Some(Signers(signerInputs, newId, tokens))
            && read.value.files == Some(SignedFiles(sources, fileIds, fallbacks))
    ensures old(store.Valid()) ==> store.Valid()
  {
    var sr := SignRequest(newId, DefaultStatus, parentFolderId, redirectUrl,
                          Some(Signers(signerInputs, newId, tokens)),
                          Some(SignedFiles(sources, fileIds, fallbacks)));
    store.AddSignRequest(sr);
    SignRequestRoundTrip(sr);
    r := Created(SignRequestToDict(sr));
  }

  /** GET /sign_requests/<id>. */
  function GetSignRequest(signRequests: seq<SignRequest>, id: string): (r: Reply)
    ensures id !in Keys(signRequests, SignRequestKey) ==> r == NotFound("Sign request not found")
    ensures id in Keys(signRequests, SignRequestKey) ==>
              exists i :: 0 <= i < |signRequests| && signRequests[i].id == id
                          && r == Ok(SignRequestToDict(signRequests[i]))
  {
    match Find(signRequests, SignRequestKey, id)
    case None => NotFound("Sign request not found")
    case Some(sr) => Ok(SignRequestToDict(sr))
  }
}
