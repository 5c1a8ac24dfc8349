/**
 * The conflict resolver (packages/paintress-sync-plugin/src/conflict-resolver.ts):
 * which conflicting files may be merged automatically, and how.
 */
module ConflictResolver {
  import opened Fs
  import Text

  /**
   * The text merge the resolver delegates to (`reconcile(base, left, right).text`
   * from the reconcile-text library); it is not part of this model.
   */
  type Reconcile = (string, string, string) -> string

  /** The extensions listed as text-like; the source's list repeats six of them. */
  const TextExtensions: seq<string> := [
    "md", "txt", "json", "yaml", "yml", "toml", "ini", "conf", "cfg", "config", "properties", "env",
    "ini", "conf", "cfg", "config", "properties", "env"
  ]

  /** `file.path.split('.').pop()`. */
  function GetExtension(file: FileMetadata): string {
    Text.LastPiece(file.path, '.')
  }

  /** The extension is the text after the last `.`, or the whole path when there is none. */
  lemma ExtensionAfterLastDot(file: FileMetadata)
    ensures '.' !in file.path ==> GetExtension(file) == file.path
    ensures '.' in file.path ==>
      var i := Text.LastIndexOf(file.path, '.');
      file.path[i] == '.' && GetExtension(file) == file.path[i + 1..] && '.' !in GetExtension(file)
  {
    Text.LastPieceIsSuffix(file.path, '.');
  }

  function IsTextBasedFile(file: FileMetadata): (r: bool)
    ensures r <==> (GetExtension(file) in
      {"md", "txt", "json", "yaml", "yml", "toml", "ini", "conf", "cfg", "config", "properties", "env"})
  {
    GetExtension(file) in TextExtensions
  }

  /** `canResolve(hostFile, remoteFile)`: the host path alone decides. */
  function CanResolve(hostFile: FileMetadata, remoteFile: FileMetadata): (r: bool)
    ensures r <==> IsTextBasedFile(hostFile)
  {
    IsTextBasedFile(hostFile)
  }

  /** The remote file is never consulted: two calls with the same host file agree. */
  lemma CanResolveIgnoresRemote(hostFile: FileMetadata, remote1: FileMetadata, remote2: FileMetadata)
    ensures CanResolve(hostFile, remote1) == CanResolve(hostFile, remote2)
  {
  }

  /** A name `stem.ext` whose `ext` has no dot has extension `ext`, whatever `stem` holds. */
  lemma {:induction false} ExtensionOfDottedName(file: FileMetadata, stem: string, ext: string)
    requires '.' !in ext
    requires file.path == stem + ['.'] + ext
    ensures GetExtension(file) == ext
    ensures CanResolve(file, file) <==> ext in TextExtensions
  {
    var s := file.path;
    Text.LastPieceIsSuffix(s, '.');
    var r := Text.LastIndexOf(s, '.');
    assert s[|stem|] == '.';
    assert r == |stem|;
    assert s[r + 1..] == ext;
  }

  /** So `image.png` and `notes.MD` are never merged, while `notes.md` is. */
  lemma Examples(file: FileMetadata)
    ensures file.path == "image.png" ==> !CanResolve(file, file)
    ensures file.path == "notes.MD" ==> !CanResolve(file, file)
    ensures file.path == "notes.md" ==> CanResolve(file, file)
  {
    if file.path == "image.png" {
      ExtensionOfDottedName(file, "image", "png");
    } else if file.path == "notes.MD" {
      ExtensionOfDottedName(file, "notes", "MD");
    } else if file.path == "notes.md" {
      ExtensionOfDottedName(file, "notes", "md");
    }
  }

  /** The content the older side had, by `updatedAt`; on a tie the remote counts as older. */
  function OlderContent(hostFile: FileMetadata, remoteFile: FileMetadata, hostContent: string, remoteContent: string): string {
    if hostFile.updatedAt < remoteFile.updatedAt then hostContent else remoteContent
  }

  function NewerContent(hostFile: FileMetadata, remoteFile: FileMetadata, hostContent: string, remoteContent: string): string {
    if hostFile.updatedAt < remoteFile.updatedAt then remoteContent else hostContent
  }

  /** `resolve`: reconcile the newer text against the older one, the older one serving as both base and left side. */
  function Resolve(reconcile: Reconcile, hostFile: FileMetadata, remoteFile: FileMetadata,
                   hostContent: string, remoteContent: string): (merged: string)
    ensures var older := OlderContent(hostFile, remoteFile, hostContent, remoteContent);
      merged == reconcile(older, older, NewerContent(hostFile, remoteFile, hostContent, remoteContent))
  {
    var oldFile := if hostFile.updatedAt < remoteFile.updatedAt then hostContent else remoteContent;
    var newFile := if hostFile.updatedAt < remoteFile.updatedAt then remoteContent else hostContent;
    reconcile(oldFile, oldFile, newFile)
  }

  /** The older and newer texts are the two inputs in some order, chosen by the stamps. */
  lemma OlderNewerPermutation(hostFile: FileMetadata, remoteFile: FileMetadata, hostContent: string, remoteContent: string)
    ensures var o := OlderContent(hostFile, remoteFile, hostContent, remoteContent);
      var n := NewerContent(hostFile, remoteFile, hostContent, remoteContent);
      multiset{o, n} == multiset{hostContent, remoteContent}
      && (hostFile.updatedAt < remoteFile.updatedAt ==> o == hostContent && n == remoteContent)
      && (hostFile.updatedAt >= remoteFile.updatedAt ==> o == remoteContent && n == hostContent)
  {
  }
}
