/** Verification of a model file: file-system checks, GGUF structure, identity, optional checksum. */
module ModelVerifier {
  import opened Wrappers
  import opened GgufMetadata
  import GgufFormat
  import GgufReader
  import GgufReports
  import GgufTheorems
  import Sha256Spec
  import Sha256Theorems
  import opened DigestText

  datatype PathState = Missing | NotRegular | Unreadable | Regular(content: string)

  datatype VerificationStatus =
    NotYetVerified | PathNotFound | PathNotRegularFile | PathUnreadable | FileEmpty | InvalidMagic
    | UnsupportedVersion | TruncatedHeader | MalformedMetadata | ChecksumMismatch | Verified
  {
    /** The number a registry file stores for the status. */
    function Number(): (n: nat)
      ensures n <= 10
    {
      match this
      case NotYetVerified => 0
      case PathNotFound => 1
      case PathNotRegularFile => 2
      case PathUnreadable => 3
      case FileEmpty => 4
      case InvalidMagic => 5
      case UnsupportedVersion => 6
      case TruncatedHeader => 7
      case MalformedMetadata => 8
      case ChecksumMismatch => 9
      case Verified => 10
    }
  }

  datatype VerificationResult = VerificationResult(status: VerificationStatus, metadata: ModelMetadata,
                                                   identity: Sha256Theorems.ModelIdentity)

  function MapStatus(s: GgufReader.GgufStatus): VerificationStatus {
    match s
    case PathNotFound => PathNotFound
    case PathUnreadable => PathUnreadable
    case FileEmpty => FileEmpty
    case InvalidMagic => InvalidMagic
    case UnsupportedVersion => UnsupportedVersion
    case TruncatedHeader => TruncatedHeader
    case MalformedMetadata => MalformedMetadata
    case Valid => Verified
  }

  /** The bytes of a file: its characters as unsigned octets. */
  function ToBytes(s: string): (r: seq<Sha256Spec.byte>)
    ensures |r| == |s| && forall i :: 0 <= i < |s| && s[i] as int < 256 ==> r[i] == s[i] as int
  {
    seq(|s|, i requires 0 <= i < |s| => s[i] as int % 256)
  }

  function Identity(content: string): string {
    Sha256Spec.Sha256Hex(ToBytes(content))
  }

  /** The hash value of a file. */
  function HashOf(content: string): Sha256Spec.Hash { Sha256Spec.HashBlocks(Sha256Spec.Pad(ToBytes(content))) }

  const NO_IDENTITY := Sha256Theorems.ModelIdentity(false, "")

  /** The verdict on a file whose second reading, for the hash, succeeds. */
  function ResultOf(file: PathState, expected: string): VerificationResult {
    match file
    case Missing => VerificationResult(PathNotFound, NO_METADATA, NO_IDENTITY)
    case NotRegular => VerificationResult(PathNotRegularFile, NO_METADATA, NO_IDENTITY)
    case Unreadable => VerificationResult(PathUnreadable, NO_METADATA, NO_IDENTITY)
    case Regular(content) =>
      var (gguf, metadata) := GgufReader.Verdict(content);
      if gguf != GgufReader.Valid then VerificationResult(MapStatus(gguf), metadata, NO_IDENTITY)
      else
        var id := Identity(content);
        VerificationResult(if expected == "" || Lower(expected) == id then Verified else ChecksumMismatch, metadata,
                           Sha256Theorems.ModelIdentity(true, id))
  }

  /** The file has a valid structure and can be hashed: it gets an identity. */
  predicate Identifies(file: PathState, hashFails: Option<nat>) {
    && file.Regular? && GgufReader.Verdict(file.content).0 == GgufReader.Valid
    && (hashFails.None? || hashFails.value > |file.content| / Sha256Theorems.CHUNK_BYTES)
  }

  /** It is identified, and has the expected hash if one is configured. */
  predicate Passes(file: PathState, expected: string, hashFails: Option<nat>) {
    Identifies(file, hashFails) && (expected == "" || Lower(expected) == Identity(file.content))
  }

  /** hashFails: the second reading of the file, for its hash, hits a read error at that call. */
  method Verify(file: PathState, expected: string, hashFails: Option<nat>) returns (r: VerificationResult)
    ensures hashFails.None? || r.identity.computed ==> r == ResultOf(file, expected)
    ensures r.identity.computed <==> Identifies(file, hashFails)
    ensures r.identity.computed ==> r.identity.sha256Hex == Identity(file.content)
    ensures r.status == Verified <==> Passes(file, expected, hashFails)
    ensures r.status == ChecksumMismatch <==>
              r.identity.computed && expected != "" && Lower(expected) != Identity(file.content)
    ensures r.identity.computed ==> ReadDigest(r.identity.sha256Hex) == Some(HashOf(file.content))
    ensures r.status == Verified <==>
              && Identifies(file, hashFails)
              && (expected == "" || ReadDigest(expected) == Some(HashOf(file.content)))
    ensures file.Regular? ==> r.metadata == GgufReader.Verdict(file.content).1
    ensures match file
            case Missing => r.status == PathNotFound
            case NotRegular => r.status == PathNotRegularFile
            case Unreadable => r.status == PathUnreadable
            case Regular(content) =>
              && (GgufReader.Verdict(content).0 != GgufReader.Valid ==>
                    r.status == MapStatus(GgufReader.Verdict(content).0))
              && (GgufReader.Verdict(content).0 == GgufReader.Valid && !r.identity.computed ==>
                    r.status == PathUnreadable)
  {
    hide GgufReader.Verdict, Sha256Spec.HexDigest, Sha256Spec.HashBlocks, Sha256Spec.Pad, Lower, ReadDigest;
    if file.Regular? {
      ReadsAsExactly(expected, HashOf(file.content));
    }
    r := VerificationResult(NotYetVerified, NO_METADATA, NO_IDENTITY);
    match file {
      case Missing => return r.(status := PathNotFound);
      case NotRegular => return r.(status := PathNotRegularFile);
      case Unreadable => return r.(status := PathUnreadable);
      case Regular(content) =>
        EmptyFilesAreRefused(content);
        if content == "" {
          return r.(status := FileEmpty);
        }
        var gguf, metadata, _ := GgufReader.Validate(Some(content), true);
        r := r.(status := MapStatus(gguf), metadata := metadata);
        if r.status != Verified {
          return;
        }
        var identity := Sha256Theorems.ComputeModelIdentity(Some(ToBytes(content)), hashFails);
        r := r.(identity := identity);
        if !identity.computed {
          return r.(status := PathUnreadable);
        }
        if expected != "" && Lower(expected) != identity.sha256Hex {
          return r.(status := ChecksumMismatch);
        }
        return r.(status := Verified);
    }
  }

  lemma ComputedIdentity(content: string, expected: string)
    ensures var v := ResultOf(Regular(content), expected);
            v.identity.sha256Hex == if v.identity.computed then Identity(content) else ""
  {
    hide GgufReader.Verdict, Identity, Lower;
  }

  lemma IdentifiedResult(file: PathState, expected: string, hashFails: Option<nat>)
    requires Identifies(file, hashFails)
    ensures ResultOf(file, expected).identity.sha256Hex == Identity(file.content)
  {
    hide GgufReader.Verdict, Identity, Lower;
  }

  lemma EmptyFilesAreRefused(content: string)
    ensures content == "" ==> GgufReader.Verdict(content) == (GgufReader.FileEmpty, NO_METADATA)
  {
  }

  /** The number of the status, in the terms of the file: 1 to 3 for what the file system says, 4 for an empty file,
      7 for a short header, 5 for the magic, 6 for the version, 8 for the rest of the structure, 9 when the expected
      checksum does not read as the file's hash value and 10 when it does or none is expected. */
  lemma StatusNumbers(file: PathState, expected: string)
    requires file.Regular? ==> GgufFormat.Octets(file.content)
    ensures var n := ResultOf(file, expected).status.Number();
            match file
            case Missing => n == 1
            case NotRegular => n == 2
            case Unreadable => n == 3
            case Regular(content) =>
              if |content| == 0 then n == 4
              else if |content| < 24 then n == 7
              else if content[..4] != "GGUF" then n == 5
              else if GgufReports.U32At(content, 4) !in {2, 3} then n == 6
              else if !GgufTheorems.BeginsWithEncoding(content) then n == 8
              else n == if expected == "" || ReadDigest(expected) == Some(HashOf(content)) then 10 else 9
  {
    hide GgufReader.Verdict, Sha256Spec.HexDigest, Sha256Spec.HashBlocks, Sha256Spec.Pad, Lower, ReadDigest, ToBytes;
    hide GgufTheorems.BeginsWithEncoding, GgufReports.U32At, GgufFormat.Octets;
    if file.Regular? {
      GgufReports.VerdictCauses(file.content);
      ReadsAsExactly(expected, HashOf(file.content));
    }
  }
}
