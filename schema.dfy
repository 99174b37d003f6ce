/**
 * The records the patch pipeline passes around (lib/patch-schema.ts):
 * proposed changes, validation and apply results, file states, session
 * states and change-log entries.
 */
module Schema {
  import opened Wrappers

  /**
   * The `operation` field of a change. The model's JSON can carry any text
   * there, so names other than the three known ones are kept as `Unknown`.
   */
  datatype Operation = Modify | Create | Delete | Unknown(name: string)
  {
    /** The text of the field, as error messages and events print it. */
    function Name(): string
    {
      match this
      case Modify => "modify"
      case Create => "create"
      case Delete => "delete"
      case Unknown(n) => n
    }
  }

  /** One proposed file mutation; `diff` and `content` are optional JSON fields. */
  datatype Change = Change(path: string, operation: Operation, diff: Option<string>, content: Option<string>)

  /** JavaScript truthiness of an optional text field: present and not empty. */
  predicate Provided(field: Option<string>)
  {
    field.Some? && field.value != ""
  }

  datatype PatchProposal = PatchProposal(changes: seq<Change>)

  datatype ValidationResult = ValidationResult(valid: bool, errors: seq<string>)

  datatype ApplyResult = ApplyResult(success: bool, path: string, error: Option<string>)

  function Succeeded(path: string): ApplyResult
  {
    ApplyResult(true, path, None)
  }

  function Failed(path: string, error: string): ApplyResult
  {
    ApplyResult(false, path, Some(error))
  }

  /**
   * A SHA-256 digest, kept as the content it was computed from: two digests
   * are equal exactly when their contents are, which is all the pipeline
   * relies on.
   */
  datatype Digest = Sha256(content: string)

  function Checksum(content: string): Digest
  {
    Sha256(content)
  }

  lemma ChecksumInjective(a: string, b: string)
    ensures Checksum(a) == Checksum(b) <==> a == b
  {
  }

  datatype FileState = FileState(path: string, checksum: Digest, lastRead: int)

  datatype ChangeLogEntry = ChangeLogEntry(timestamp: int, path: string, operation: Operation, checksum: Digest)

  datatype SessionState = SessionState(
    filesRead: map<string, FileState>,
    filesModified: set<string>,
    changeLog: seq<ChangeLogEntry>,
    startTime: int)
}
