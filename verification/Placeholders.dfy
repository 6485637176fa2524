/** Metadata-only placeholder directories: writing them, and telling whether one is untouched. */
module Placeholders {
  import opened Paths
  import opened Disks

  const SCHEMA: nat := 1
  const KIND := "codemesh-placeholder"
  const METADATA_FILE := ".codemesh-placeholder.json"
  const NOTE_FILE := "CODEMESH_PLACEHOLDER.txt"
  const GIT_BARRIER := ".git"

  datatype Metadata = Metadata(schema: nat, kind: string, project: string, identity: string, path: Abs)

  /** The JSON encoding of metadata, and the texts of the other two files, by alias. */
  datatype Codec = Codec(encode: Metadata -> string, decode: string -> Option<Metadata>, note: string -> string,
                         barrier: string -> string)

  /** A `.git` file that makes its directory a checkout. */
  predicate PointsToGitDir(content: string) { "gitdir:" <= Trim(content) }

  ghost predicate Lawful(codec: Codec) {
    && (forall m :: codec.decode(codec.encode(m)) == Some(m))
    && (forall alias :: !PointsToGitDir(codec.barrier(alias)))
  }

  function SentinelFiles(): set<string> { {METADATA_FILE, GIT_BARRIER, NOTE_FILE} }

  function NoteText(alias: string): string {
    "CodeMesh placeholder\n\nThis directory is metadata-only and is not a Git checkout. Run codemesh hydrate " + alias
      + " to clone source content.\n"
  }

  function BarrierText(alias: string): string {
    "CodeMesh placeholder for " + alias + ": this path is not a Git checkout.\n"
  }

  /** The texts are lawful with any lossless encoding. */
  lemma TextsAreLawful(encode: Metadata -> string, decode: string -> Option<Metadata>)
    requires forall m :: decode(encode(m)) == Some(m)
    ensures Lawful(Codec(encode, decode, NoteText, BarrierText))
  {
    forall alias ensures !PointsToGitDir(BarrierText(alias)) { assert BarrierText(alias)[0] == 'C'; }
  }

  predicate ValidMetadata(m: Metadata) { m.schema == SCHEMA && m.kind == KIND && m.project != "" && m.identity != "" }

  function MetadataFor(alias: string, identity: string, path: Abs): Metadata {
    Metadata(SCHEMA, KIND, alias, identity, path)
  }

  /** `Is`: no placeholder, one that cannot be made sense of, or one with its metadata. */
  datatype Sighting = NoPlaceholder | Unreadable | Sighted(metadata: Metadata)

  lemma SentinelsArePlain()
    ensures Plain(METADATA_FILE) && Plain(GIT_BARRIER) && Plain(NOTE_FILE)
    ensures METADATA_FILE != GIT_BARRIER && METADATA_FILE != NOTE_FILE && GIT_BARRIER != NOTE_FILE
  {
  }

  function MetadataPath(path: Abs): (p: Abs)
    ensures p == path + [METADATA_FILE]
  {
    SentinelsArePlain();
    path + [METADATA_FILE]
  }

  function NotePath(path: Abs): (p: Abs)
    ensures p == path + [NOTE_FILE]
  {
    SentinelsArePlain();
    path + [NOTE_FILE]
  }

  function BarrierPath(path: Abs): (p: Abs)
    ensures p == path + [GIT_BARRIER]
  {
    SentinelsArePlain();
    path + [GIT_BARRIER]
  }

  function Sight(codec: Codec, fs: Fs, path: Abs): Sighting {
    match Stat(fs, path)
    case NotExist => NoPlaceholder
    case NotInFolder => Unreadable
    case Found(File(_)) => NoPlaceholder
    case Found(Folder) =>
      match At(fs, MetadataPath(path))
      case None => NoPlaceholder
      case Some(Folder) => Unreadable
      case Some(File(content)) =>
        var m := codec.decode(content);
        if m.Some? && ValidMetadata(m.value) then Sighted(m.value) else Unreadable
  }

  /** The directory holds exactly the three files of the project's placeholder, besides what is allowed. */
  predicate Untouched(codec: Codec, fs: Fs, path: Abs, alias: string, identity: string, allowed: set<string>) {
    IsFolder(fs, path) && Names(fs, path) - allowed == SentinelFiles() && HasContents(codec, fs, path, alias, identity)
  }

  predicate HasContents(codec: Codec, fs: Fs, path: Abs, alias: string, identity: string) {
    && At(fs, MetadataPath(path)) == Some(File(codec.encode(MetadataFor(alias, identity, path))))
    && At(fs, NotePath(path)) == Some(File(codec.note(alias)))
    && At(fs, BarrierPath(path)) == Some(File(codec.barrier(alias)))
  }

  /** The name under which a path is directly in a directory. */
  function NameIn(path: Abs, inside: Option<Abs>): set<string> {
    if inside.Some? && path < inside.value && |inside.value| == |path| + 1 then {inside.value[|path|]} else {}
  }

  /** `OwnedByAllowing`: whether the directory is an untouched placeholder of the project, but for one path.  An error
      counts as no. */
  method OwnedByAllowing(codec: Codec, disk: Disk, path: Abs, alias: string, identity: string, allowed: Option<Abs>)
    returns (owned: bool)
    requires disk.Valid() && Lawful(codec)
    ensures owned <==>
        Untouched(codec, disk.fs, path, alias, identity, NameIn(path, allowed)) && alias != "" && identity != ""
  {
    var fs := disk.fs;
    UntouchedIsSighted(codec, fs, path, alias, identity, NameIn(path, allowed));
    var sighting := Sight(codec, fs, path);
    if sighting != Sighted(MetadataFor(alias, identity, path)) { return false; }
    var names := OtherNames(fs, path, allowed);
    owned := names == SentinelFiles() && HasContents(codec, fs, path, alias, identity);
  }

  /** An untouched placeholder has the metadata expected of it, and only a folder has any. */
  lemma UntouchedIsSighted(codec: Codec, fs: Fs, path: Abs, alias: string, identity: string, allowed: set<string>)
    requires Lawful(codec)
    ensures
      var sighting := Sight(codec, fs, path);
      && (sighting.Sighted? ==> IsFolder(fs, path) && ValidMetadata(sighting.metadata))
      && (Untouched(codec, fs, path, alias, identity, allowed) && alias != "" && identity != "" ==>
            sighting == Sighted(MetadataFor(alias, identity, path)) && sighting.metadata.project == alias
            && sighting.metadata.identity == identity && sighting.metadata.path == path)
  {
  }

  /** The loop over the entries that leaves out the allowed one. */
  method OtherNames(fs: Fs, path: Abs, allowed: Option<Abs>) returns (names: set<string>)
    ensures names == Names(fs, path) - NameIn(path, allowed)
  {
    names := {};
    var left := Names(fs, path);
    while left != {}
      invariant left <= Names(fs, path) && names == Names(fs, path) - left - NameIn(path, allowed)
    {
      var name :| name in left;
      left := left - {name};
      var q := Entry(fs, path, name);
      AllowedName(path, name, allowed);
      if allowed != Some(q) { names := names + {name}; }
    }
  }

  lemma AllowedName(path: Abs, name: string, allowed: Option<Abs>)
    ensures name in NameIn(path, allowed) <==> allowed.Some? && allowed.value == path + [name]
  {
  }

  /** The path of an entry of a directory. */
  function Entry(fs: Fs, path: Abs, name: string): (q: Abs)
    requires name in Names(fs, path)
    ensures q == path + [name] && q in fs
  {
    assert exists q :: q in fs && |q| == |path| + 1 && path < q && q[|path|] == name && q == path + [name];
    path + [name]
  }
}
