/** The source-archive preflight and topology check (scripts/verify_release_tree.py). */
module Archive {
  import opened Wrappers
  import opened Text

  const MAX_MEMBER_BYTES := 2 * 1024 * 1024
  const MAX_TOTAL_BYTES := 32 * 1024 * 1024

  datatype TarKind = Link | DirectoryEntry | RegularFile | SpecialEntry

  datatype TarInfo = TarInfo(name: string, kind: TarKind, size: int)

  datatype Member = Member(path: string, size: int, isFile: bool)

  datatype Rule =
    | UnsafePath | LinkMember | SpecialMember | DuplicateMember | DisallowedPath | MemberSizeLimit | AggregateSizeLimit
    | FileAncestor | MissingMetadata | UnexpectedRoot

  datatype Finding = Finding(path: string, rule: Rule)

  const ARCHIVE_PATH: string := "<archive>"

  // ---- paths ----

  function ToPosix(raw: string): (s: string)
    ensures |s| == |raw|
    ensures forall i | 0 <= i < |raw| :: s[i] == if raw[i] == '\\' then '/' else raw[i]
  {
    if raw == "" then "" else [if raw[0] == '\\' then '/' else raw[0]] + ToPosix(raw[1..])
  }

  /** `(?i)^[a-z]:/`: a letter, in the sense of Python's case-insensitive class, which also admits
      U+0130, U+0131, U+017F and U+212A. */
  predicate IsDriveRooted(s: string) {
    && |s| >= 3 && s[1] == ':' && s[2] == '/'
    && ('a' <= s[0] <= 'z' || 'A' <= s[0] <= 'Z'
        || s[0] == '\U{0130}' || s[0] == '\U{0131}' || s[0] == '\U{017F}' || s[0] == '\U{212A}')
  }

  /** The parts of a pure POSIX path: empty and "." segments disappear. */
  function KeptParts(parts: seq<string>): (kept: seq<string>)
    ensures forall p | p in kept :: p in parts && p != "" && p != "."
  {
    if parts == [] then []
    else (if parts[0] == "" || parts[0] == "." then [] else [parts[0]]) + KeptParts(parts[1..])
  }

  /** `_normalize_path`; None stands for its unsafe-path finding. */
  function Normalize(raw: string): Option<string> {
    var posix := ToPosix(raw);
    if posix == "" || '\0' in posix || posix[0] == '/' || IsDriveRooted(posix) then None
    else
      var parts := KeptParts(Split(posix, '/'));
      if parts == [] || ".." in parts then None else Some(Join(parts, '/'))
  }

  /** Python's `s.rstrip("/")`. */
  function StripSlashes(s: string): string {
    if s != "" && s[|s| - 1] == '/' then StripSlashes(s[..|s| - 1]) else s
  }

  /** How a finding names a path that could not be normalized. */
  function DisplayPath(raw: string): string {
    var shown := StripSlashes(ToPosix(raw));
    if shown == "" then ARCHIVE_PATH else shown
  }

  /** The segments of a normalized path. */
  function Segments(path: string): (parts: seq<string>)
    ensures parts != []
  {
    Split(path, '/')
  }

  /** A relative path with nothing to resolve: every segment names something. */
  predicate IsPlainPath(path: string) {
    '\\' !in path && '\0' !in path
    && forall p | p in Segments(path) :: p != "" && p != "." && p != ".."
  }

  lemma {:induction false} JoinAvoids(parts: seq<string>, c: char)
    requires c != '/' && forall p | p in parts :: c !in p
    ensures c !in Join(parts, '/')
  {
    if |parts| > 1 {
      JoinAvoids(parts[1..], c);
    }
  }

  lemma {:induction false} SplitMembers(s: string, sep: char, c: char)
    requires c !in s
    ensures forall p | p in Split(s, sep) :: c !in p
  {
    if s != "" {
      SplitMembers(s[1..], sep, c);
    }
  }

  lemma ToPosixHasNoBackslash(raw: string)
    ensures '\\' !in ToPosix(raw)
  {
  }

  /** What normalization accepts becomes a plain path with the kept parts as its segments. */
  lemma NormalizedIsPlain(raw: string)
    requires Normalize(raw).Some?
    ensures var path := Normalize(raw).value;
            IsPlainPath(path) && Segments(path) == KeptParts(Split(ToPosix(raw), '/'))
  {
    var posix := ToPosix(raw);
    var parts := KeptParts(Split(posix, '/'));
    ToPosixHasNoBackslash(raw);
    SplitMembers(posix, '/', '\\');
    SplitMembers(posix, '/', '\0');
    JoinAvoids(parts, '\\');
    JoinAvoids(parts, '\0');
    SplitOfJoin(parts, '/');
  }

  lemma {:induction false} KeptMembers(parts: seq<string>, p: string)
    ensures p in KeptParts(parts) <==> p in parts && p != "" && p != "."
  {
    if parts != [] {
      KeptMembers(parts[1..], p);
      assert parts == [parts[0]] + parts[1..];
    }
  }

  /** What normalization accepts: a relative path without NUL and drive letter that names something and never goes up.
      */
  lemma NormalizeAcceptsExactly(raw: string)
    ensures var parts := Split(ToPosix(raw), '/');
            Normalize(raw).Some? <==>
              && raw != "" && raw[0] != '/' && raw[0] != '\\' && '\0' !in raw && !IsDriveRooted(ToPosix(raw))
              && ".." !in parts && exists p :: p in parts && p != "" && p != "."
  {
    var posix := ToPosix(raw);
    var parts := Split(posix, '/');
    assert '\0' in posix <==> '\0' in raw by {
      if '\0' in raw {
        var i :| 0 <= i < |raw| && raw[i] == '\0';
        assert posix[i] == '\0';
      }
    }
    KeptMembers(parts, "..");
    if KeptParts(parts) != [] {
      KeptMembers(parts, KeptParts(parts)[0]);
    }
    forall p ensures p in KeptParts(parts) <==> p in parts && p != "" && p != "." {
      KeptMembers(parts, p);
    }
  }

  lemma {:induction false} KeptIsIdempotent(parts: seq<string>)
    requires forall p | p in parts :: p != "" && p != "."
    ensures KeptParts(parts) == parts
  {
    if parts != [] {
      forall p | p in parts[1..] ensures p != "" && p != "." {
        assert p in parts;
      }
      KeptIsIdempotent(parts[1..]);
      assert parts[0] in parts;
      assert parts == [parts[0]] + parts[1..];
    }
  }

  lemma {:induction false} PosixOfPosix(s: string)
    requires '\\' !in s
    ensures ToPosix(s) == s
  {
    if s != "" {
      PosixOfPosix(s[1..]);
      assert s == [s[0]] + s[1..];
    }
  }

  /** Normalizing a normalized path changes nothing, unless a leading "." hid a drive letter: normalization is
      idempotent on an accepted path if and only if its result is not drive-rooted. */
  lemma NormalizeIsIdempotentUnlessDriveRooted(raw: string)
    requires Normalize(raw).Some?
    ensures Normalize(Normalize(raw).value) == Normalize(raw) <==> !IsDriveRooted(Normalize(raw).value)
  {
    var path := Normalize(raw).value;
    NormalizedIsPlain(raw);
    PosixOfPosix(path);
    KeptIsIdempotent(Segments(path));
    assert Join(Segments(path), '/') == path;
    FirstSegment(path);
  }

  lemma FirstSegment(path: string)
    requires forall p | p in Segments(path) :: p != ""
    ensures path != "" && path[0] != '/'
  {
    var parts := Segments(path);
    assert Join(parts, '/') == path;
    assert parts[0] in parts && parts[0] != "" && '/' !in parts[0];
    assert path[0] == parts[0][0];
  }

  predicate IsPlainSegment(p: string) {
    p != "" && p != "." && p != ".." && '/' !in p && '\\' !in p && '\0' !in p
  }

  lemma SplitOfTwo(a: string, b: string)
    requires '/' !in a && '/' !in b
    ensures Split(a + ['/'] + b, '/') == [a, b]
    ensures Join([a, b], '/') == a + ['/'] + b
  {
    SplitOfPlain(a, '/');
    SplitOfPlain(b, '/');
    SplitOfConcat(a, b, '/');
    assert [a, b][1..] == [b];
  }

  lemma KeptAfterDot(parts: seq<string>)
    requires forall p | p in parts :: p != "" && p != "."
    ensures KeptParts(["."] + parts) == parts
  {
    KeptIsIdempotent(parts);
    assert (["."] + parts)[1..] == parts;
  }

  /** A leading "." segment disappears without its successor being looked at again. */
  lemma LeadingDotDisappears(a: string, b: string)
    requires IsPlainSegment(a) && IsPlainSegment(b)
    ensures Normalize("." + ['/'] + (a + ['/'] + b)) == Some(a + ['/'] + b)
  {
    hide Split, KeptParts, Join;
    var path := a + ['/'] + b;
    var raw := "." + ['/'] + path;
    assert '\\' !in raw && '\0' !in raw;
    PosixOfPosix(raw);
    SplitOfTwo(a, b);
    SplitOfPlain(".", '/');
    SplitOfConcat(".", path, '/');
    KeptAfterDot([a, b]);
    assert raw[0] == '.' && raw[1] == '/';
  }

  /** A drive letter can be hidden behind a leading dot: "./C:/x" is accepted as "C:/x", which is itself refused. */
  lemma DriveCanHideBehindDot()
    ensures Normalize("." + ['/'] + ("C:" + ['/'] + "x")) == Some("C:" + ['/'] + "x")
    ensures Normalize("C:" + ['/'] + "x") == None
  {
    LeadingDotDisappears("C:", "x");
    PosixOfPosix("C:" + ['/'] + "x");
  }

  // ---- preflight ----

  function MemberOf(info: TarInfo): Member
    requires Normalize(info.name).Some?
  {
    Member(Normalize(info.name).value, info.size, info.kind == RegularFile)
  }

  /** One archive entry is acceptable by itself. */
  predicate Acceptable(info: TarInfo, disallowed: (string, bool) -> bool) {
    && Normalize(info.name).Some?
    && (info.kind == RegularFile || info.kind == DirectoryEntry)
    && !disallowed(Normalize(info.name).value, info.kind == RegularFile)
    && (info.kind == RegularFile ==> 0 <= info.size <= MAX_MEMBER_BYTES)
  }

  function FileBytes(infos: seq<TarInfo>): int {
    if infos == [] then 0
    else
      var last := infos[|infos| - 1];
      FileBytes(infos[..|infos| - 1]) + if last.kind == RegularFile then last.size else 0
  }

  /** What the preflight accepts, as a whole: acceptable entries, no path twice, bounded total size. */
  ghost predicate CleanArchive(infos: seq<TarInfo>, disallowed: (string, bool) -> bool) {
    && (forall i | 0 <= i < |infos| :: Acceptable(infos[i], disallowed))
    && (forall i, j | 0 <= i < j < |infos| :: Normalize(infos[i].name) != Normalize(infos[j].name))
    && FileBytes(infos) <= MAX_TOTAL_BYTES
  }

  function MembersOf(infos: seq<TarInfo>): (members: seq<Member>)
    requires forall i | 0 <= i < |infos| :: Normalize(infos[i].name).Some?
    ensures |members| == |infos|
    ensures forall i | 0 <= i < |infos| :: members[i] == MemberOf(infos[i])
  {
    seq(|infos|, i requires 0 <= i < |infos| => MemberOf(infos[i]))
  }

  lemma {:induction false} FileBytesGrow(infos: seq<TarInfo>, i: nat)
    requires i <= |infos|
    requires forall j | 0 <= j < |infos| && infos[j].kind == RegularFile :: infos[j].size >= 0
    ensures FileBytes(infos[..i]) <= FileBytes(infos)
  {
    if i < |infos| {
      assert infos[..|infos| - 1][..i] == infos[..i];
      FileBytesGrow(infos[..|infos| - 1], i);
    } else {
      assert infos[..i] == infos;
    }
  }

  lemma CleanPrefix(infos: seq<TarInfo>, disallowed: (string, bool) -> bool, i: nat)
    requires i <= |infos| && CleanArchive(infos, disallowed)
    ensures CleanArchive(infos[..i], disallowed)
  {
    FileBytesGrow(infos, i);
  }

  /** The next entry keeps the archive clean exactly if it is acceptable, new, and within the total. */
  lemma CleanStep(infos: seq<TarInfo>, info: TarInfo, disallowed: (string, bool) -> bool)
    requires CleanArchive(infos, disallowed)
    ensures CleanArchive(infos + [info], disallowed) <==>
              && Acceptable(info, disallowed)
              && (forall i | 0 <= i < |infos| :: Normalize(infos[i].name) != Normalize(info.name))
              && FileBytes(infos) + (if info.kind == RegularFile then info.size else 0) <= MAX_TOTAL_BYTES
  {
    hide Normalize;
    var all := infos + [info];
    assert all[..|all| - 1] == infos && all[|infos|] == info;
    assert forall i | 0 <= i < |infos| :: all[i] == infos[i];
  }

  ghost predicate NamedBefore(infos: seq<TarInfo>, i: nat, path: string)
    requires i <= |infos|
  {
    exists j :: 0 <= j < i && Normalize(infos[j].name) == Some(path)
  }

  /** Entry `i` is at fault in the way that the finding says. */
  ghost predicate Shows(infos: seq<TarInfo>, disallowed: (string, bool) -> bool, i: nat, f: Finding)
    requires i < |infos|
  {
    var info := infos[i];
    var named := Normalize(info.name) == Some(f.path);
    match f.rule
    case UnsafePath => Normalize(info.name).None? && f.path == DisplayPath(info.name)
    case LinkMember => named && info.kind == Link
    case SpecialMember => named && info.kind == SpecialEntry
    case DuplicateMember => named && NamedBefore(infos, i, f.path)
    case DisallowedPath => named && disallowed(f.path, info.kind == RegularFile)
    case MemberSizeLimit => named && info.kind == RegularFile && !(0 <= info.size <= MAX_MEMBER_BYTES)
    case AggregateSizeLimit => f.path == ARCHIVE_PATH && FileBytes(infos[..i + 1]) > MAX_TOTAL_BYTES
    case _ => false
  }

  /** Each finding is a fault of some entry among the first `k`. */
  ghost predicate Explained(infos: seq<TarInfo>, disallowed: (string, bool) -> bool, k: nat, findings: seq<Finding>)
    requires k <= |infos|
  {
    forall f | f in findings :: exists i :: 0 <= i < k && Shows(infos, disallowed, i, f)
  }

  /** `_append_member`. */
  method AppendMember(info: TarInfo, path: string, disallowed: (string, bool) -> bool,
                      seen0: set<string>, members0: seq<Member>, findings0: seq<Finding>)
    returns (seen: set<string>, members: seq<Member>, findings: seq<Finding>)
    ensures seen == seen0 + {path}
    ensures members == if path in seen0 then members0
                       else members0 + [Member(path, info.size, info.kind == RegularFile)]
    ensures findings == if path in seen0 then findings0 + [Finding(path, DuplicateMember)]
                        else if disallowed(path, info.kind == RegularFile) then
                          findings0 + [Finding(path, DisallowedPath)]
                        else findings0
  {
    seen, members, findings := seen0, members0, findings0;
    if path in seen {
      findings := findings + [Finding(path, DuplicateMember)];
      return;
    }
    seen := seen + {path};
    if disallowed(path, info.kind == RegularFile) {
      findings := findings + [Finding(path, DisallowedPath)];
    }
    members := members + [Member(path, info.size, info.kind == RegularFile)];
  }

  /** `_preflight_tar`: it reports nothing exactly on clean archives, whose entries it then returns in order, and
      whatever it reports is a fault of some entry. */
  method PreflightTar(infos: seq<TarInfo>, disallowed: (string, bool) -> bool)
    returns (members: seq<Member>, findings: seq<Finding>)
    ensures findings == [] <==> CleanArchive(infos, disallowed)
    ensures findings == [] ==> members == MembersOf(infos)
    ensures Explained(infos, disallowed, |infos|, findings)
  {
    hide Normalize, FileBytes, DisplayPath, Explained, NamedBefore, CleanArchive, AreMembers;
    members, findings := [], [];
    var seen: set<string> := {};
    var totalFileBytes := 0;
    NothingFound(infos, disallowed);
    for k := 0 to |infos|
      invariant findings == [] <==> CleanArchive(infos[..k], disallowed)
      invariant findings == [] ==> AreMembers(infos, k, members) && totalFileBytes == FileBytes(infos[..k])
      invariant forall p | p in seen :: NamedBefore(infos, k, p)
      invariant findings == [] ==> forall p | NamedBefore(infos, k, p) :: p in seen
      invariant Explained(infos, disallowed, k, findings)
    {
      var info := infos[k];
      ghost var next := k + 1;
      OneMoreEntry(infos, k, next, disallowed);
      FaultsExplain(infos, k, next, disallowed);
      OneMoreMember(infos, k, next, members);
      var normalized := Normalize(info.name);
      if normalized.None? {
        findings := findings + [Finding(DisplayPath(info.name), UnsafePath)];
        return;
      }
      var path := normalized.value;
      if info.kind == Link {
        findings := findings + [Finding(path, LinkMember)];
        continue;
      }
      if info.kind != DirectoryEntry && info.kind != RegularFile {
        findings := findings + [Finding(path, SpecialMember)];
        continue;
      }
      var isFile := info.kind == RegularFile;
      if findings != [] && isFile {
        return;
      }
      var previousFindingCount := |findings|;
      seen, members, findings := AppendMember(info, path, disallowed, seen, members, findings);
      if isFile {
        if info.size < 0 || info.size > MAX_MEMBER_BYTES {
          findings := findings + [Finding(path, MemberSizeLimit)];
        }
        totalFileBytes := totalFileBytes + info.size;
        if totalFileBytes > MAX_TOTAL_BYTES {
          findings := findings + [Finding(ARCHIVE_PATH, AggregateSizeLimit)];
        }
        if |findings| > previousFindingCount {
          return;
        }
      }
    }
    assert infos[..|infos|] == infos;
    if findings == [] {
      AllMembers(infos, members, disallowed);
    }
  }

  /** The entries of the first `k` infos, in order. */
  ghost predicate AreMembers(infos: seq<TarInfo>, k: nat, members: seq<Member>)
    requires k <= |infos|
  {
    |members| == k && forall i | 0 <= i < k :: Normalize(infos[i].name).Some? && members[i] == MemberOf(infos[i])
  }

  lemma OneMoreMember(infos: seq<TarInfo>, k: nat, next: nat, members: seq<Member>)
    requires k < |infos| && next == k + 1
    ensures AreMembers(infos, k, members) && Normalize(infos[k].name).Some? ==>
              AreMembers(infos, next, members + [MemberOf(infos[k])])
  {
    hide Normalize;
  }

  lemma AllMembers(infos: seq<TarInfo>, members: seq<Member>, disallowed: (string, bool) -> bool)
    requires CleanArchive(infos, disallowed) && AreMembers(infos, |infos|, members)
    ensures members == MembersOf(infos)
  {
    hide Normalize;
  }

  /** What one more entry changes: cleanliness, the bytes and the names seen. */
  lemma OneMoreEntry(infos: seq<TarInfo>, k: nat, next: nat, disallowed: (string, bool) -> bool)
    requires k < |infos| && next == k + 1
    ensures CleanArchive(infos[..next], disallowed) <==>
              && CleanArchive(infos[..k], disallowed) && Acceptable(infos[k], disallowed)
              && !NamedBefore(infos, k, Normalize(infos[k].name).value)
              && FileBytes(infos[..next]) <= MAX_TOTAL_BYTES
    ensures CleanArchive(infos[..k], disallowed) ==> FileBytes(infos[..k]) <= MAX_TOTAL_BYTES
    ensures FileBytes(infos[..next])
         == FileBytes(infos[..k]) + if infos[k].kind == RegularFile then infos[k].size else 0
    ensures forall p :: NamedBefore(infos, next, p) <==> NamedBefore(infos, k, p) || Normalize(infos[k].name) == Some(p)
    ensures !CleanArchive(infos[..next], disallowed) ==> !CleanArchive(infos, disallowed)
  {
    hide Normalize, FileBytes;
    var before, info := infos[..k], infos[k];
    assert infos[..next] == before + [info];
    FileBytesStep(before, info);
    if CleanArchive(before, disallowed) {
      CleanStep(before, info, disallowed);
    } else {
      DirtyPrefix(infos, disallowed, k, next);
    }
    DirtyPrefixes(infos, disallowed, next);
  }

  /** A fault of the entry explains one more finding, and what is explained stays so. */
  lemma FaultsExplain(infos: seq<TarInfo>, k: nat, next: nat, disallowed: (string, bool) -> bool)
    requires k < |infos| && next == k + 1
    ensures forall fs | Explained(infos, disallowed, k, fs) :: Explained(infos, disallowed, next, fs)
    ensures forall fs, f | Explained(infos, disallowed, next, fs) && Shows(infos, disallowed, k, f) ::
              Explained(infos, disallowed, next, fs + [f])
    ensures forall fs | Explained(infos, disallowed, next, fs) :: Explained(infos, disallowed, |infos|, fs)
  {
    hide Shows;
  }

  lemma NothingFound(infos: seq<TarInfo>, disallowed: (string, bool) -> bool)
    ensures CleanArchive(infos[..0], disallowed) && FileBytes(infos[..0]) == 0 && AreMembers(infos, 0, [])
    ensures (forall p :: !NamedBefore(infos, 0, p)) && Explained(infos, disallowed, 0, [])
  {
  }

  lemma FileBytesStep(infos: seq<TarInfo>, info: TarInfo)
    ensures FileBytes(infos + [info]) == FileBytes(infos) + if info.kind == RegularFile then info.size else 0
  {
    assert (infos + [info])[..|infos|] == infos;
  }

  lemma DirtyPrefix(infos: seq<TarInfo>, disallowed: (string, bool) -> bool, i: nat, j: nat)
    requires i <= j <= |infos| && !CleanArchive(infos[..i], disallowed)
    ensures !CleanArchive(infos[..j], disallowed)
  {
    if CleanArchive(infos[..j], disallowed) {
      assert infos[..j][..i] == infos[..i];
      CleanPrefix(infos[..j], disallowed, i);
    }
  }

  lemma DirtyPrefixes(infos: seq<TarInfo>, disallowed: (string, bool) -> bool, i: nat)
    requires i <= |infos|
    ensures !CleanArchive(infos[..i], disallowed) ==> !CleanArchive(infos, disallowed)
  {
    if !CleanArchive(infos[..i], disallowed) {
      DirtyPrefix(infos, disallowed, i, |infos|);
      assert infos[..|infos|] == infos;
    }
  }

  // ---- topology ----

  /** `parent.as_posix()` for the parent that keeps `i` segments. */
  function ParentPath(parts: seq<string>, i: nat): string
    requires i < |parts|
  {
    if i == 0 then "." else Join(parts[..i], '/')
  }

  function FilePaths(members: seq<Member>): set<string> {
    set m | m in members && m.isFile :: m.path
  }

  function FileAncestors(members: seq<Member>): set<string> {
    set m, i | m in members && 0 <= i < |Segments(m.path)| && ParentPath(Segments(m.path), i) in FilePaths(members) ::
      ParentPath(Segments(m.path), i)
  }

  predicate IsMetadata(m: Member) {
    m.isFile && |Segments(m.path)| == 2 && Segments(m.path)[1] == "pyproject.toml"
  }

  function MetadataMembers(members: seq<Member>): (found: seq<Member>)
    ensures forall m :: m in found <==> m in members && IsMetadata(m)
  {
    if members == [] then []
    else (if IsMetadata(members[0]) then [members[0]] else []) + MetadataMembers(members[1..])
  }

  function Roots(members: seq<Member>): set<string> {
    set m | m in members :: Segments(m.path)[0]
  }

  function OutsideRoot(members: seq<Member>, root: string): set<Finding> {
    set m | m in members && Segments(m.path)[0] != root :: Finding(m.path, UnexpectedRoot)
  }

  /** `_topology_findings` for a source archive. */
  function SdistFindings(members: seq<Member>): set<Finding> {
    var ancestors, metadata := FileAncestors(members), MetadataMembers(members);
    if ancestors != {} then set p | p in ancestors :: Finding(p, FileAncestor)
    else if metadata == [] then {Finding(ARCHIVE_PATH, MissingMetadata)}
    else
      var findings := OutsideRoot(members, Segments(metadata[0].path)[0]);
      if |Roots(members)| != 1 && findings == {} then {Finding(ARCHIVE_PATH, UnexpectedRoot)} else findings
  }

  /** The check for several roots, made once every member was found under the root of a project file, never fires. */
  lemma SeveralRootsAreFoundBefore(members: seq<Member>, m: Member)
    requires m in members && OutsideRoot(members, Segments(m.path)[0]) == {}
    ensures |Roots(members)| == 1
  {
    hide Split;
    var root := Segments(m.path)[0];
    forall n | n in members ensures Segments(n.path)[0] == root {
      assert Segments(n.path)[0] != root ==> Finding(n.path, UnexpectedRoot) in OutsideRoot(members, root);
    }
    assert Roots(members) == {root};
  }

  predicate IsAncestor(p: seq<string>, q: seq<string>) {
    |p| < |q| && p == q[..|p|]
  }

  /** One root directory that holds everything and a project file, and no file where a directory is needed. */
  ghost predicate IsTree(members: seq<Member>) {
    && (forall m, f | m in members && f in members && f.isFile :: !IsAncestor(Segments(f.path), Segments(m.path)))
    && exists root :: RootedAt(members, root)
  }

  ghost predicate RootedAt(members: seq<Member>, root: string) {
    && (forall m | m in members :: Segments(m.path)[0] == root)
    && exists m :: m in members && IsMetadata(m)
  }

  lemma AncestorsAreFound(members: seq<Member>)
    requires forall m | m in members :: IsPlainPath(m.path)
    ensures FileAncestors(members) == {} <==>
              forall m, f | m in members && f in members && f.isFile :: !IsAncestor(Segments(f.path), Segments(m.path))
  {
    hide Split;
    if m, f :| m in members && f in members && f.isFile && IsAncestor(Segments(f.path), Segments(m.path)) {
      var i := |Segments(f.path)|;
      assert ParentPath(Segments(m.path), i) == f.path;
      assert f.path in FilePaths(members);
      assert ParentPath(Segments(m.path), i) in FileAncestors(members);
    }
    if p :| p in FileAncestors(members) {
      var m, i :| m in members && 0 <= i < |Segments(m.path)| && ParentPath(Segments(m.path), i) == p
                  && p in FilePaths(members);
      var f :| f in members && f.isFile && f.path == p;
      var parts := Segments(m.path);
      DotIsNotPlain();
      assert i > 0;
      assert forall q | q in parts[..i] :: q in parts;
      SplitOfJoin(parts[..i], '/');
      assert IsAncestor(Segments(f.path), parts);
    }
  }

  lemma DotIsNotPlain()
    ensures !IsPlainPath(".")
  {
    SplitOfPlain(".", '/');
    assert "." in Segments(".");
  }

  /** The topology check reports nothing exactly when the members form one tree. */
  lemma TopologyIsExact(members: seq<Member>)
    requires forall m | m in members :: IsPlainPath(m.path)
    ensures SdistFindings(members) == {} <==> IsTree(members)
  {
    hide Split, FileAncestors, IsMetadata;
    AncestorsAreFound(members);
    var ancestors, metadata := FileAncestors(members), MetadataMembers(members);
    if ancestors != {} {
      var p :| p in ancestors;
      assert Finding(p, FileAncestor) in SdistFindings(members);
    } else if metadata == [] {
      assert SdistFindings(members) != {};
    } else {
      var root := Segments(metadata[0].path)[0];
      assert metadata[0] in members;
      var findings := OutsideRoot(members, root);
      if findings == {} {
        SeveralRootsAreFoundBefore(members, metadata[0]);
      }
      assert SdistFindings(members) == findings;
      if findings == {} {
        forall m | m in members ensures Segments(m.path)[0] == root {
          assert Segments(m.path)[0] != root ==> Finding(m.path, UnexpectedRoot) in findings;
        }
        assert RootedAt(members, root);
      }
      if IsTree(members) {
        var r :| RootedAt(members, r);
        assert r == root;
        assert findings == {};
      }
    }
  }

  // ---- extraction ----

  /** What has been written so far: directories, and placed files. */
  datatype Tree = Tree(directories: set<seq<string>>, files: set<Member>)

  function Ancestors(parts: seq<string>): set<seq<string>> {
    set i | 0 < i < |parts| :: parts[..i]
  }

  predicate HasFile(tree: Tree, parts: seq<string>) {
    exists f | f in tree.files :: Segments(f.path) == parts
  }

  /** Writing one member, with the directories it needs; None when something is in the way. */
  function Place(tree: Tree, m: Member): Option<Tree> {
    var parts := Segments(m.path);
    if HasFile(tree, parts) || (exists p | p in Ancestors(parts) :: HasFile(tree, p)) then None
    else if m.isFile then
      if parts in tree.directories then None
      else Some(Tree(tree.directories + Ancestors(parts), tree.files + {m}))
    else Some(Tree(tree.directories + Ancestors(parts) + {parts}, tree.files))
  }

  function Materialise(members: seq<Member>): Option<Tree> {
    if members == [] then Some(Tree({}, {}))
    else
      match Materialise(members[..|members| - 1])
      case None => None
      case Some(tree) => Place(tree, members[|members| - 1])
  }

  /** The tree that a set of members describes, in no order. */
  ghost function TreeOf(members: set<Member>): Tree {
    Tree((set m, p | m in members && p in Ancestors(Segments(m.path)) :: p)
           + (set m | m in members && !m.isFile :: Segments(m.path)),
         set m | m in members && m.isFile)
  }

  /** Members that can coexist: distinct paths, and no file above another member. */
  ghost predicate Coexist(members: set<Member>) {
    && (forall m, n | m in members && n in members && m != n :: Segments(m.path) != Segments(n.path))
    && (forall m, f | m in members && f in members && f.isFile :: !IsAncestor(Segments(f.path), Segments(m.path)))
  }

  lemma PlaceOne(members: set<Member>, m: Member)
    requires Coexist(members + {m}) && m !in members
    ensures Place(TreeOf(members), m) == Some(TreeOf(members + {m}))
  {
    hide Split;
    var tree, parts, all := TreeOf(members), Segments(m.path), members + {m};
    forall f | f in tree.files ensures Segments(f.path) != parts && Segments(f.path) !in Ancestors(parts) {
      assert f in all && m in all && f != m;
      assert !IsAncestor(Segments(f.path), parts);
    }
    if m.isFile {
      forall p | p in tree.directories ensures p != parts {
        if n :| n in members && p in Ancestors(Segments(n.path)) {
          assert n in all && m in all && !IsAncestor(parts, Segments(n.path));
        } else {
          var n :| n in members && !n.isFile && p == Segments(n.path);
          assert n in all && m in all && n != m;
        }
      }
    }
    assert TreeOf(all).files == if m.isFile then tree.files + {m} else tree.files;
    PlaceDirectories(members, m);
    var needed := tree.directories + Ancestors(parts);
    assert needed + {} == needed;
  }

  lemma PlaceDirectories(members: set<Member>, m: Member)
    ensures TreeOf(members + {m}).directories
         == TreeOf(members).directories + Ancestors(Segments(m.path)) + if m.isFile then {} else {Segments(m.path)}
  {
    hide Split, Ancestors;
    var all := members + {m};
    assert forall n :: n in all <==> n in members || n == m;
  }

  /** Members that can coexist can be written in any order: nothing is ever in the way, and the tree that
      results depends only on the set of members. */
  lemma {:induction false} AnyOrderMaterialises(members: seq<Member>)
    requires Coexist(set m | m in members)
    requires forall i, j | 0 <= i < j < |members| :: members[i] != members[j]
    ensures Materialise(members) == Some(TreeOf(set m | m in members))
  {
    hide Place, TreeOf;
    if members == [] {
      assert (set m | m in members) == {};
      EmptyTree();
    } else {
      var front, last := members[..|members| - 1], members[|members| - 1];
      var before := set m | m in front;
      assert members == front + [last];
      assert (set m | m in members) == before + {last};
      assert last !in before;
      AnyOrderMaterialises(front);
      PlaceOne(before, last);
    }
  }

  lemma EmptyTree()
    ensures TreeOf({}) == Tree({}, {})
  {
  }

  /** An accepted archive is a well-formed tree: plain relative paths, all distinct, under one root that has a
      project file, no file above another member, sizes within both limits; and writing its members in any order
      gives the same tree. */
  lemma AcceptedArchiveIsTree(infos: seq<TarInfo>, disallowed: (string, bool) -> bool, order: seq<Member>)
    requires CleanArchive(infos, disallowed) && SdistFindings(MembersOf(infos)) == {}
    requires multiset(order) == multiset(MembersOf(infos))
    ensures var members := MembersOf(infos);
            && (forall m | m in members :: IsPlainPath(m.path) && (m.isFile ==> 0 <= m.size <= MAX_MEMBER_BYTES))
            && (forall i, j | 0 <= i < j < |members| :: members[i].path != members[j].path)
            && FileBytes(infos) <= MAX_TOTAL_BYTES
            && IsTree(members)
            && Materialise(order) == Materialise(members) == Some(TreeOf(set m | m in members))
  {
    hide Normalize, SdistFindings, Split, Materialise, TreeOf;
    var members := MembersOf(infos);
    forall m | m in members ensures IsPlainPath(m.path) && (m.isFile ==> 0 <= m.size <= MAX_MEMBER_BYTES) {
      var i :| 0 <= i < |members| && members[i] == m;
      assert Acceptable(infos[i], disallowed);
      NormalizedIsPlain(infos[i].name);
    }
    forall i, j | 0 <= i < j < |members| ensures members[i].path != members[j].path {
      assert Normalize(infos[i].name) != Normalize(infos[j].name);
    }
    TopologyIsExact(members);
    DistinctCoexist(members);
    AnyOrderMaterialises(members);
    SameMembers(order, members);
    AnyOrderMaterialises(order);
  }

  lemma DistinctCoexist(members: seq<Member>)
    requires forall i, j | 0 <= i < j < |members| :: members[i].path != members[j].path
    requires IsTree(members)
    ensures Coexist(set m | m in members)
  {
    hide Split;
    forall m, n | m in members && n in members && m != n ensures Segments(m.path) != Segments(n.path) {
      var i :| 0 <= i < |members| && members[i] == m;
      var j :| 0 <= j < |members| && members[j] == n;
      assert m.path != n.path;
      assert Join(Segments(m.path), '/') == m.path && Join(Segments(n.path), '/') == n.path;
    }
  }

  lemma SameMembers(order: seq<Member>, members: seq<Member>)
    requires multiset(order) == multiset(members)
    requires forall i, j | 0 <= i < j < |members| :: members[i].path != members[j].path
    ensures (set m | m in order) == (set m | m in members)
    ensures forall i, j | 0 <= i < j < |order| :: order[i] != order[j]
  {
    forall m ensures m in order <==> m in members {
      assert m in order <==> m in multiset(order);
      assert m in members <==> m in multiset(members);
    }
    forall i, j | 0 <= i < j < |order| ensures order[i] != order[j] {
      if order[i] == order[j] {
        TwiceInMultiset(order, i, j);
        OnceInMultiset(members, order[i]);
      }
    }
  }

  lemma TwiceInMultiset(s: seq<Member>, i: nat, j: nat)
    requires i < j < |s| && s[i] == s[j]
    ensures multiset(s)[s[i]] >= 2
  {
    assert s == s[..j] + s[j..];
    assert s[i] in s[..j] && s[j] in s[j..];
  }

  lemma {:induction false} OnceInMultiset(s: seq<Member>, m: Member)
    requires forall i, j | 0 <= i < j < |s| :: s[i].path != s[j].path
    ensures multiset(s)[m] <= 1
  {
    if s != [] {
      var front, last := s[..|s| - 1], s[|s| - 1];
      assert s == front + [last];
      OnceInMultiset(front, m);
      if m == last {
        assert forall i | 0 <= i < |front| :: front[i].path != m.path;
        assert m !in front;
      }
    }
  }
}
