/**
 Repository glyph selection (`repos_status`): a missing working copy gives a
 single "missing" marker; otherwise the freshness code reported by the git
 probe becomes at most one freshness glyph, always followed by one dirty or
 clean glyph, and the branch name is shown in parentheses.

 Whether the directory exists, and what the git probe reports (dirty flag,
 branch, freshness code), are inputs: the filesystem and git are outside this
 model.
 */
module RepoStatus {
  import opened Optional
  import opened Glyphs

  /** What the git queries report for an existing working copy. */
  datatype GitProbe = GitProbe(dirty: bool, branch: string, freshness: int)

  /** The freshness states the code recognises. */
  datatype Freshness = Synced | Behind | Ahead | Diverged | Untracked

  /** The integer freshness code of each state. */
  function Code(f: Freshness): int {
    match f
    case Synced => 0
    case Behind => 1
    case Ahead => 2
    case Diverged => 4
    case Untracked => 8
  }

  /** Reads a freshness code; any value other than the five codes is unrecognised. */
  function FreshnessOf(code: int): (f: Option<Freshness>)
    ensures f.Some? <==> code in {0, 1, 2, 4, 8}
    ensures f.Some? ==> Code(f.value) == code
  {
    if code == 0 then Some(Synced)
    else if code == 1 then Some(Behind)
    else if code == 2 then Some(Ahead)
    else if code == 4 then Some(Diverged)
    else if code == 8 then Some(Untracked)
    else None
  }

  /** Codes and states correspond one to one. */
  lemma CodeRoundTrip(f: Freshness)
    ensures FreshnessOf(Code(f)) == Some(f)
  {
  }

  function FreshnessGlyph(f: Freshness): Glyph {
    match f
    case Synced => Check
    case Behind => ArrowDown
    case Ahead => ArrowUp
    case Diverged => ArrowUpDown
    case Untracked => Question
  }

  function DirtyGlyph(dirty: bool): Glyph {
    if dirty then Cyclone else WhiteCircle
  }

  /** The glyphs of one repository line and the branch text shown after its name. */
  datatype RepoLine = RepoLine(glyphs: seq<Glyph>, branchText: string)

  /** `repos_status(repo_name)`, given whether the working copy exists and what git reports. */
  function ReposStatus(dirExists: bool, git: GitProbe): (r: RepoLine)
    ensures !dirExists ==> r.glyphs == [Cross] && r.branchText == ""
    ensures dirExists ==> r.branchText == "(" + git.branch + ") "
    ensures dirExists ==> 1 <= |r.glyphs| <= 2 && r.glyphs[|r.glyphs| - 1] == DirtyGlyph(git.dirty)
    ensures dirExists ==> (|r.glyphs| == 2 <==> git.freshness in {0, 1, 2, 4, 8})
    ensures forall f :: dirExists && git.freshness == Code(f) ==> r.glyphs[0] == FreshnessGlyph(f)
  {
    if !dirExists then RepoLine([Cross], "")
    else
      var freshness :=
        if git.freshness == 0 then [Check]
        else if git.freshness == 1 then [ArrowDown]
        else if git.freshness == 2 then [ArrowUp]
        else if git.freshness == 4 then [ArrowUpDown]
        else if git.freshness == 8 then [Question]
        else [];
      RepoLine(freshness + [DirtyGlyph(git.dirty)], "(" + git.branch + ") ")
  }

  /** A missing working copy reports the same line whatever git would have said:
      no git input is consulted. */
  lemma MissingIgnoresGit(g1: GitProbe, g2: GitProbe)
    ensures ReposStatus(false, g1) == ReposStatus(false, g2)
  {
  }

  /** What a reader of a repository line can tell from its glyphs. */
  datatype Reading = Missing | Present(freshness: Option<Freshness>, dirty: bool)

  function FreshnessFromGlyph(g: Glyph): Option<Freshness> {
    match g
    case Check => Some(Synced)
    case ArrowDown => Some(Behind)
    case ArrowUp => Some(Ahead)
    case ArrowUpDown => Some(Diverged)
    case Question => Some(Untracked)
    case _ => None
  }

  /** Interprets the glyphs of a line; `None` for a sequence no line can have. */
  function Read(glyphs: seq<Glyph>): Option<Reading> {
    if glyphs == [Cross] then Some(Missing)
    else if |glyphs| == 1 && glyphs[0] in {Cyclone, WhiteCircle} then
      Some(Present(None, glyphs[0] == Cyclone))
    else if |glyphs| == 2 && FreshnessFromGlyph(glyphs[0]).Some? && glyphs[1] in {Cyclone, WhiteCircle} then
      Some(Present(FreshnessFromGlyph(glyphs[0]), glyphs[1] == Cyclone))
    else None
  }

  /** Freshness and dirtiness are reported as two independent glyphs: both can be
      read back from every line, and a missing copy is told apart from an existing one. */
  lemma ReadBack(dirExists: bool, git: GitProbe)
    ensures Read(ReposStatus(dirExists, git).glyphs)
            == Some(if dirExists then Present(FreshnessOf(git.freshness), git.dirty) else Missing)
  {
  }
}
