/** The four record kinds of a tenant database, their column defaults and their `to_dict`
    renderings. Each rendering is paired with a reader that recovers the record from the
    rendered document, and a lemma says what the round trip keeps. */
module Models {
  import opened Common

  const RootId: string := "0"
  const RootName: string := "All Files"
  const DefaultVersion: nat := 1
  const DefaultSize: nat := 0
  const DefaultStatus: string := "created"

  datatype User = User(
    id: string,
    name: string,
    email: Option<string>,
    login: Option<string>,
    isPlatformAccessOnly: bool,
    jobTitle: Option<string>)

  /** A folder row; `parentId` is the nullable foreign key to another folder. */
  datatype Folder = Folder(id: string, parentId: Option<string>, name: string)

  /** A file row; its content lives in the blob directory under the same id. */
  datatype File = File(id: string, folderId: string, name: string, version: nat, size: nat)

  datatype Signer = Signer(email: Option<string>, role: string, embedUrl: string)
  datatype SignedFile = SignedFile(id: string, name: string)

  /** A sign-request row. The signer and output-file lists are kept as JSON text in the
      database; `None` stands for a NULL or empty text column. */
  datatype SignRequest = SignRequest(
    id: string,
    status: string,
    parentFolderId: Option<string>,
    redirectUrl: Option<string>,
    signers: Option<seq<Signer>>,
    files: Option<seq<SignedFile>>)

  /** The folder every tenant database starts with. */
  const Root: Folder := Folder(RootId, None, RootName)

  /** A new File row: columns the caller leaves out take their defaults. */
  function NewFile(id: string, folderId: string, name: string, size: Option<nat>): (f: File)
    ensures f.id == id && f.folderId == folderId && f.name == name
    ensures f.version == 1
    ensures size.None? ==> f.size == 0
    ensures size.Some? ==> f.size == size.value
  {
    File(id, folderId, name, DefaultVersion, size.GetOr(DefaultSize))
  }

  // ---------------------------------------------------------------------------------
  // Decimal rendering, used by the file-version id `<id>_v<version>`

  function DigitChar(d: nat): char
    requires d < 10
  {
    "0123456789"[d]
  }

  predicate IsDigit(c: char) {
    '0' <= c <= '9'
  }

  /** Python's str() of a non-negative int. */
  function Decimal(n: nat): (s: string)
    ensures |s| >= 1
    ensures forall i :: 0 <= i < |s| ==> IsDigit(s[i])
  {
    if n < 10 then [DigitChar(n)] else Decimal(n / 10) + [DigitChar(n % 10)]
  }

  /** int() of a string of decimal digits. */
  function ParseDecimal(s: string): nat
    requires forall i :: 0 <= i < |s| ==> IsDigit(s[i])
  {
    if s == [] then 0
    else
      var d := s[|s| - 1] as int - '0' as int;
      assert IsDigit(s[|s| - 1]);
      ParseDecimal(s[..|s| - 1]) * 10 + (if d < 0 then 0 else d)
  }

  lemma {:induction false} DecimalRoundTrip(n: nat)
    ensures ParseDecimal(Decimal(n)) == n
  {
    var s := Decimal(n);
    assert s[|s| - 1] as int - '0' as int == n % 10;
    if n >= 10 {
      assert s[..|s| - 1] == Decimal(n / 10);
      DecimalRoundTrip(n / 10);
    }
  }

  /** The id of a file's current version as `to_dict` renders it. */
  function VersionId(fileId: string, version: nat): string {
    fileId + "_v" + Decimal(version)
  }

  /** Different versions of one file get different version ids. */
  lemma VersionIdsDiffer(fileId: string, v1: nat, v2: nat)
    requires v1 != v2
    ensures VersionId(fileId, v1) != VersionId(fileId, v2)
  {
    var k := |fileId| + 2;
    assert VersionId(fileId, v1)[k..] == Decimal(v1);
    assert VersionId(fileId, v2)[k..] == Decimal(v2);
    DecimalRoundTrip(v1);
    DecimalRoundTrip(v2);
  }

  // ---------------------------------------------------------------------------------
  // Reading members back out of a rendered document

  function StrAt(j: Json, key: string): Option<string> {
    match Member(j, key)
    case Some(Str(s)) => Some(s)
    case _ => None
  }

  function NatAt(j: Json, key: string): Option<nat> {
    match Member(j, key)
    case Some(Int(i)) => if i >= 0 then Some(i) else None
    case _ => None
  }

  function BoolAt(j: Json, key: string): Option<bool> {
    match Member(j, key)
    case Some(Bool(b)) => Some(b)
    case _ => None
  }

  /** A nullable string member: `Some(None)` for null, `None` when it is missing or not a
      string. */
  function OptStrAt(j: Json, key: string): Option<Option<string>> {
    match Member(j, key)
    case Some(Null) => Some(None)
    case Some(Str(s)) => Some(Some(s))
    case _ => None
  }

  /** `{"type": "folder", "id": id}`, the reference to a folder inside other documents. */
  function FolderRef(id: string): Json {
    Obj(map["type" := Str("folder"), "id" := Str(id)])
  }

  /** Python's truthiness of a nullable string column: NULL and "" are both false. */
  predicate Truthy(o: Option<string>) {
    o.Some? && o.value != ""
  }

  /** A nullable folder reference: null unless the column is truthy. */
  function OptFolderRef(o: Option<string>): (j: Json)
    ensures j == Null <==> !Truthy(o)
    ensures Truthy(o) ==> StrAt(j, "id") == Some(o.value)
  {
    if Truthy(o) then FolderRef(o.value) else Null
  }

  /** Reads a nullable folder reference back: null gives no folder. */
  function FolderRefFromJson(j: Json): Option<Option<string>> {
    if j == Null then Some(None)
    else if StrAt(j, "type") == Some("folder") && StrAt(j, "id").Some? then Some(StrAt(j, "id"))
    else None
  }

  // ---------------------------------------------------------------------------------
  // User

  function UserToDict(u: User): (j: Json)
    ensures StrAt(j, "type") == Some("user")
    ensures StrAt(j, "id") == Some(u.id)
  {
    Obj(map["type" := Str("user"),
            "id" := Str(u.id),
            "name" := Str(u.name),
            "login" := OptStr(u.login),
            "email" := OptStr(u.email),
            "is_platform_access_only" := Bool(u.isPlatformAccessOnly),
            "job_title" := OptStr(u.jobTitle)])
  }

  function UserFromDict(j: Json): Option<User> {
    if && StrAt(j, "type") == Some("user")
       && StrAt(j, "id").Some?
       && StrAt(j, "name").Some?
       && OptStrAt(j, "email").Some?
       && OptStrAt(j, "login").Some?
       && BoolAt(j, "is_platform_access_only").Some?
       && OptStrAt(j, "job_title").Some?
    then Some(User(StrAt(j, "id").value, StrAt(j, "name").value, OptStrAt(j, "email").value,
                   OptStrAt(j, "login").value, BoolAt(j, "is_platform_access_only").value,
                   OptStrAt(j, "job_title").value))
    else None
  }

  /** Every column except the creation time survives rendering. */
  lemma UserRoundTrip(u: User)
    ensures UserFromDict(UserToDict(u)) == Some(u)
  {
  }

  // ---------------------------------------------------------------------------------
  // Folder

  function FolderToDict(f: Folder): (j: Json)
    ensures StrAt(j, "type") == Some("folder")
    ensures StrAt(j, "id") == Some(f.id)
    ensures Member(j, "parent") == Some(Null) <==> !Truthy(f.parentId)
  {
    Obj(map["type" := Str("folder"),
            "id" := Str(f.id),
            "name" := Str(f.name),
            "parent" := OptFolderRef(f.parentId)])
  }

  function FolderFromDict(j: Json): Option<Folder> {
    if && StrAt(j, "type") == Some("folder")
       && StrAt(j, "id").Some?
       && StrAt(j, "name").Some?
       && Member(j, "parent").Some?
       && FolderRefFromJson(Member(j, "parent").value).Some?
    then Some(Folder(StrAt(j, "id").value, FolderRefFromJson(Member(j, "parent").value).value,
                     StrAt(j, "name").value))
    else None
  }

  /** Rendering keeps the id and name, and the parent unless it is the empty string, which
      renders as no parent at all. */
  lemma FolderRoundTrip(f: Folder)
    ensures FolderFromDict(FolderToDict(f))
            == Some(if f.parentId == Some("") then f.(parentId := None) else f)
  {
  }

  // ---------------------------------------------------------------------------------
  // File

  function FileToDict(f: File): (j: Json)
    ensures StrAt(j, "type") == Some("file")
    ensures StrAt(j, "id") == Some(f.id)
    ensures Member(j, "file_version").Some?
    ensures StrAt(Member(j, "file_version").value, "id") == Some(VersionId(f.id, f.version))
    ensures NatAt(Member(j, "file_version").value, "version_number") == Some(f.version)
  {
    Obj(map["type" := Str("file"),
            "id" := Str(f.id),
            "name" := Str(f.name),
            "size" := Int(f.size),
            "parent" := FolderRef(f.folderId),
            "file_version" := Obj(map["id" := Str(VersionId(f.id, f.version)),
                                      "version_number" := Int(f.version)])])
  }

  function FileFromDict(j: Json): Option<File> {
    if && StrAt(j, "type") == Some("file")
       && StrAt(j, "id").Some?
       && StrAt(j, "name").Some?
       && NatAt(j, "size").Some?
       && Member(j, "parent").Some?
       && StrAt(Member(j, "parent").value, "id").Some?
       && Member(j, "file_version").Some?
       && NatAt(Member(j, "file_version").value, "version_number").Some?
    then Some(File(StrAt(j, "id").value, StrAt(Member(j, "parent").value, "id").value,
                   StrAt(j, "name").value,
                   NatAt(Member(j, "file_version").value, "version_number").value,
                   NatAt(j, "size").value))
    else None
  }

  /** Every column except the creation time survives rendering. */
  lemma FileRoundTrip(f: File)
    ensures FileFromDict(FileToDict(f)) == Some(f)
  {
  }

  // ---------------------------------------------------------------------------------
  // SignRequest

  function SignerToJson(s: Signer): Json {
    Obj(map["type" := Str("signer"),
            "email" := OptStr(s.email),
            "role" := Str(s.role),
            "embed_url" := Str(s.embedUrl)])
  }

  function SignedFileToJson(f: SignedFile): Json {
    Obj(map["type" := Str("file"), "id" := Str(f.id), "name" := Str(f.name)])
  }

  function SignersToJson(ss: seq<Signer>): (r: seq<Json>)
    ensures |r| == |ss|
    ensures forall i :: 0 <= i < |ss| ==> r[i] == SignerToJson(ss[i])
  {
    seq(|ss|, i requires 0 <= i < |ss| => SignerToJson(ss[i]))
  }

  function SignedFilesToJson(fs: seq<SignedFile>): (r: seq<Json>)
    ensures |r| == |fs|
    ensures forall i :: 0 <= i < |fs| ==> r[i] == SignedFileToJson(fs[i])
  {
    seq(|fs|, i requires 0 <= i < |fs| => SignedFileToJson(fs[i]))
  }

  function SignRequestToDict(sr: SignRequest): (j: Json)
    ensures StrAt(j, "type") == Some("sign-request")
    ensures StrAt(j, "id") == Some(sr.id)
    ensures StrAt(j, "status") == Some(sr.status)
    ensures sr.signers.None? ==> Member(j, "signers") == Some(Arr([]))
    ensures Member(j, "parent_folder") == Some(Null) <==> !Truthy(sr.parentFolderId)
  {
    Obj(map["type" := Str("sign-request"),
            "id" := Str(sr.id),
            "status" := Str(sr.status),
            "signers" := Arr(SignersToJson(sr.signers.GetOr([]))),
            "sign_files" := Obj(map["files" := Arr(SignedFilesToJson(sr.files.GetOr([])))]),
            "parent_folder" := OptFolderRef(sr.parentFolderId)])
  }

  function SignerFromJson(j: Json): Option<Signer> {
    if && StrAt(j, "type") == Some("signer")
       && OptStrAt(j, "email").Some?
       && StrAt(j, "role").Some?
       && StrAt(j, "embed_url").Some?
    then Some(Signer(OptStrAt(j, "email").value, StrAt(j, "role").value, StrAt(j, "embed_url").value))
    else None
  }

  function SignedFileFromJson(j: Json): Option<SignedFile> {
    if StrAt(j, "type") == Some("file") && StrAt(j, "id").Some? && StrAt(j, "name").Some?
    then Some(SignedFile(StrAt(j, "id").value, StrAt(j, "name").value))
    else None
  }

  function SignersFromJson(js: seq<Json>): Option<seq<Signer>> {
    if js == [] then Some([])
    else match (SignerFromJson(js[0]), SignersFromJson(js[1..]))
      case (Some(s), Some(rest)) => Some([s] + rest)
      case _ => None
  }

  function SignedFilesFromJson(js: seq<Json>): Option<seq<SignedFile>> {
    if js == [] then Some([])
    else match (SignedFileFromJson(js[0]), SignedFilesFromJson(js[1..]))
      case (Some(f), Some(rest)) => Some([f] + rest)
      case _ => None
  }

  lemma {:induction false} SignersRoundTrip(ss: seq<Signer>)
    ensures SignersFromJson(SignersToJson(ss)) == Some(ss)
  {
    if ss != [] {
      assert SignersToJson(ss)[1..] == SignersToJson(ss[1..]);
      assert SignerFromJson(SignerToJson(ss[0])) == Some(ss[0]);
      SignersRoundTrip(ss[1..]);
      assert [ss[0]] + ss[1..] == ss;
    }
  }

  lemma {:induction false} SignedFilesRoundTrip(fs: seq<SignedFile>)
    ensures SignedFilesFromJson(SignedFilesToJson(fs)) == Some(fs)
  {
    if fs != [] {
      assert SignedFilesToJson(fs)[1..] == SignedFilesToJson(fs[1..]);
      assert SignedFileFromJson(SignedFileToJson(fs[0])) == Some(fs[0]);
      SignedFilesRoundTrip(fs[1..]);
      assert [fs[0]] + fs[1..] == fs;
    }
  }

  function SignRequestFromDict(j: Json): Option<SignRequest> {
    if && StrAt(j, "type") == Some("sign-request")
       && StrAt(j, "id").Some?
       && StrAt(j, "status").Some?
       && Member(j, "signers").Some? && Member(j, "signers").value.Arr?
       && SignersFromJson(Member(j, "signers").value.items).Some?
       && Member(j, "sign_files").Some?
       && Member(Member(j, "sign_files").value, "files").Some?
       && Member(Member(j, "sign_files").value, "files").value.Arr?
       && SignedFilesFromJson(Member(Member(j, "sign_files").value, "files").value.items).Some?
       && Member(j, "parent_folder").Some?
       && FolderRefFromJson(Member(j, "parent_folder").value).Some?
    then Some(SignRequest(
      StrAt(j, "id").value, StrAt(j, "status").value,
      FolderRefFromJson(Member(j, "parent_folder").value).value,
      None,
      SignersFromJson(Member(j, "signers").value.items),
      SignedFilesFromJson(Member(Member(j, "sign_files").value, "files").value.items)))
    else None
  }

  /** The members of a rendered sign request that carry its lists and its folder. */
  lemma SignRequestMembers(sr: SignRequest)
    ensures var j := SignRequestToDict(sr);
            var files := Obj(map["files" := Arr(SignedFilesToJson(sr.files.GetOr([])))]);
            && Member(j, "signers") == Some(Arr(SignersToJson(sr.signers.GetOr([]))))
            && Member(j, "sign_files") == Some(files)
            && Member(files, "files") == Some(Arr(SignedFilesToJson(sr.files.GetOr([]))))
            && Member(j, "parent_folder") == Some(OptFolderRef(sr.parentFolderId))
  {
    var j := SignRequestToDict(sr);
    assert Member(j, "signers") == Some(Arr(SignersToJson(sr.signers.GetOr([]))));
    assert Member(j, "sign_files") == Some(Obj(map["files" := Arr(SignedFilesToJson(sr.files.GetOr([])))]));
  }

  /** Rendering keeps id, status, signers and output files; a missing list reads back as
      an empty one, an empty-string parent folder as none, and the redirect URL is not
      rendered at all. */
  lemma SignRequestRoundTrip(sr: SignRequest)
    ensures SignRequestFromDict(SignRequestToDict(sr)) == Some(SignRequest(
      sr.id, sr.status,
      if Truthy(sr.parentFolderId) then sr.parentFolderId else None,
      None,
      Some(sr.signers.GetOr([])),
      Some(sr.files.GetOr([]))))
  {
    SignRequestMembers(sr);
    SignersRoundTrip(sr.signers.GetOr([]));
    SignedFilesRoundTrip(sr.files.GetOr([]));
  }
}
