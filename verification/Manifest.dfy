/** Workspace manifest entries and the changes an import plans for them. */
module Manifest {
  import opened Paths
  import opened Projects

  /** A manifest entry with its text fields trimmed and its desired path cleaned; None is a blank path. */
  datatype Entry = Entry(version: nat, identity: string, alias: string, desired: Option<Path>, hint: string)

  const VERSION: nat := 1

  datatype ChangeAction = Add | Update | Unchanged | Conflict

  datatype Field = AliasField | CanonicalPathField | SourceField | LocalPathField | CloneURLField

  datatype Change = Change(
    action: ChangeAction, projectID: nat, identity: string, alias: string, desired: seq<string>,
    localPath: Place, canonicalPath: Place, cloneURL: string, fields: seq<Field>)

  /** `projectFromImportChange` */
  function FromChange(c: Change): Project {
    Project(c.projectID, c.alias, c.identity, c.cloneURL, c.localPath, c.canonicalPath, CANONICAL)
  }

  /** `normalizeDesiredPath` */
  function NormalDesired(raw: string): (p: Option<Path>)
    ensures p.None? <==> forall c <- raw :: IsSpace(c)
    ensures p.Some? ==> Normal(p.value)
  {
    if Trim(raw) == "" then None else
      CleanIsNormal(Trim(raw));
      Some(Clean(Trim(raw)))
  }

  /** A normal path whose text has no blanks at its ends is left as it is, however it was spelled with blanks around
      it. */
  lemma NormalStaysNormal(p: Path, raw: string)
    requires Normal(p) && Trim(raw) == Text(p)
    ensures NormalDesired(raw) == Some(p)
  {
    CleanText(p);
    if p.segs != [] { NormalFirst(p); }
  }

  /** `validateDesiredPath` on a normal path: relative, and inside the workspace. */
  predicate DesiredOk(desired: Option<Path>) {
    desired.Some? && Normal(desired.value) && !desired.value.rooted &&
    (desired.value.segs == [] || desired.value.segs[0] != "..")
  }

  /** `ValidateEntry`, but for the checks on the text of identities and clone hints. */
  predicate EntryOk(e: Entry) { e.version == VERSION && e.identity != "" && e.alias != "" && DesiredOk(e.desired) }

  /** An entry is valid exactly if it has the current version, an identity, an alias, and a desired path of plain names,
      which is relative. */
  lemma ValidEntries(e: Entry)
    ensures EntryOk(e) <==>
        && e.version == VERSION && e.identity != "" && e.alias != "" && e.desired.Some?
        && !e.desired.value.rooted && AllPlain(e.desired.value.segs)
  {
    if e.desired.Some? && e.desired.value.segs != [] { assert e.desired.value.segs[0] in e.desired.value.segs; }
  }

  /** A valid entry's desired path, below the workspace root. */
  function Below(e: Entry): Abs
    requires EntryOk(e)
  {
    e.desired.value.segs
  }
}
