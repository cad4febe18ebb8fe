/**
 Two ways to fingerprint a work tree whose index is unchanged since it was last seen clean: from
 `git status`, and from a comparison of the files with what they were then.
 */
module GitFastPath {
  import opened Prelude
  import opened Segments

  /** What stands at a path; symbolic links are not part of this. */
  datatype Node = File(content: string) | Directory

  /**
   The tracked content (index and last commit alike), the work tree, and the fixed environment;
   `posix` is how pathlib spells a path.
   */
  datatype Tree = Tree(
    tracked: map<string, string>, work: map<string, Node>,
    skips: string -> bool, hash: string -> string, isSpace: char -> bool, posix: string -> string)

  /** A dictionary from paths to signatures as it was stored, in its order. */
  type Stored = seq<(string, string)>

  /** What was noted when the work tree was last clean: a state signature and a content signature for each file. */
  datatype Notes = Notes(files: Stored, content: Stored)

  /** The notes as they are read back. */
  datatype Baseline = Baseline(files: map<string, string>, content: map<string, string>)

  /** One line of `git status`: index column, work tree column, path. */
  datatype Entry = Entry(x: char, y: char, path: string)

  datatype Staged = Staged(code: char, path: string, blob: string)
  datatype Change = Change(code: char, path: string, signature: string)
  datatype Untracked = Untracked(path: string, signature: string)
  datatype State = State(staged: seq<Staged>, unstaged: seq<Change>, untracked: seq<Untracked>)

  function FileSignature(t: Tree, content: string): string {
    "sha256:" + t.hash(content)
  }

  function ContentSignature(t: Tree, path: string): string {
    if path !in t.work then "missing"
    else match t.work[path]
      case Directory => "nonfile"
      case File(content) => FileSignature(t, content)
  }

  predicate IsFile(t: Tree, path: string) {
    path in t.work && t.work[path].File?
  }

  // ----- what the inputs are -----

  // ----- reading the notes back -----

  /** Paths are stripped of white space when they are read back. */
  function ReadPath(t: Tree, path: string): string {
    t.posix(Strip(path, t.isSpace))
  }

  predicate Readable(t: Tree, path: string, signature: string) {
    Strip(path, t.isSpace) != "" && Strip(signature, t.isSpace) != "" && ReadPath(t, path) !in {"", "."}
  }

  function ReadBack(t: Tree, stored: Stored): Option<map<string, string>> {
    if stored == [] then Some(map[])
    else
      var front, (path, signature) := ReadBack(t, stored[..|stored| - 1]), stored[|stored| - 1];
      if front.None? || !Readable(t, path, signature) then None
      else Some(front.value[ReadPath(t, path) := Strip(signature, t.isSpace)])
  }

  method NormalizeFiles(t: Tree, stored: Stored) returns (r: Option<map<string, string>>)
    ensures r == ReadBack(t, stored)
  {
    var normalized: map<string, string> := map[];
    for i := 0 to |stored|
      invariant ReadBack(t, stored[..i]) == Some(normalized)
    {
      assert stored[..i + 1][..i] == stored[..i];
      var (path, signature) := stored[i];
      if !Readable(t, path, signature) {
        ReadingStops(t, stored, i + 1);
        return None;
      }
      normalized := normalized[ReadPath(t, path) := Strip(signature, t.isSpace)];
    }
    assert stored[..|stored|] == stored;
    return Some(normalized);
  }

  lemma {:induction false} ReadingStops(t: Tree, stored: Stored, i: nat)
    requires i <= |stored| && ReadBack(t, stored[..i]).None?
    ensures ReadBack(t, stored).None?
  {
    if i == |stored| {
      assert stored[..i] == stored;
    } else {
      assert stored[..|stored| - 1][..i] == stored[..i];
      ReadingStops(t, stored[..|stored| - 1], i);
    }
  }

  function PathsOf(stored: Stored): set<string> {
    set entry | entry in stored :: entry.0
  }

  lemma {:induction false} ReadKeys(t: Tree, stored: Stored)
    ensures ReadBack(t, stored).Some? ==> ReadBack(t, stored).value.Keys == set path | path in PathsOf(stored) :: ReadPath(t, path)
    ensures ReadBack(t, stored).Some? <==> forall entry <- stored :: Readable(t, entry.0, entry.1)
  {
    if stored != [] {
      var front, last := stored[..|stored| - 1], stored[|stored| - 1];
      ReadKeys(t, front);
      assert stored == front + [last];
      assert PathsOf(stored) == PathsOf(front) + {last.0};
    }
  }

  /** A path that survives being read back. */
  predicate Survives(t: Tree, path: string) {
    Strip(path, t.isSpace) == path
  }

  ghost predicate UniquePaths(stored: Stored) {
    forall i, j :: 0 <= i < j < |stored| ==> stored[i].0 != stored[j].0
  }

  /** An entry that is read back as it was written. */
  ghost predicate Plain(t: Tree, path: string, signature: string) {
    Survives(t, path) && Survives(t, signature) && path !in {"", "."} && signature != "" && t.posix(path) == path
  }

  lemma PlainEntryReadsBack(t: Tree, stored: Stored)
    requires stored != [] && Plain(t, stored[|stored| - 1].0, stored[|stored| - 1].1) && ReadBack(t, stored[..|stored| - 1]).Some?
    ensures ReadBack(t, stored) == Some(ReadBack(t, stored[..|stored| - 1]).value[stored[|stored| - 1].0 := stored[|stored| - 1].1])
  {
  }

  /** The dictionary holds the stored entries and nothing else. */
  ghost predicate Holds(m: map<string, string>, stored: Stored) {
    m.Keys == PathsOf(stored) && forall entry <- stored :: m[entry.0] == entry.1
  }

  lemma HoldsOneMore(m: map<string, string>, stored: Stored)
    requires stored != [] && UniquePaths(stored) && Holds(m, stored[..|stored| - 1])
    ensures Holds(m[stored[|stored| - 1].0 := stored[|stored| - 1].1], stored)
  {
    var n := |stored| - 1;
    LastPathIsNew(stored);
    assert stored == stored[..n] + [stored[n]];
    assert PathsOf(stored) == PathsOf(stored[..n]) + {stored[n].0};
  }

  lemma {:induction false} PlainNotesReadBack(t: Tree, stored: Stored)
    requires UniquePaths(stored) && forall entry <- stored :: Plain(t, entry.0, entry.1)
    ensures ReadBack(t, stored).Some? && Holds(ReadBack(t, stored).value, stored)
  {
    if stored != [] {
      var n := |stored| - 1;
      PlainNotesReadBack(t, stored[..n]);
      PlainEntryReadsBack(t, stored);
      HoldsOneMore(ReadBack(t, stored[..n]).value, stored);
    }
  }

  lemma LastPathIsNew(stored: Stored)
    requires UniquePaths(stored) && stored != []
    ensures forall entry <- stored[..|stored| - 1] :: entry.0 != stored[|stored| - 1].0
  {
    var front := stored[..|stored| - 1];
    forall entry | entry in front ensures entry.0 != stored[|stored| - 1].0 {
      var i :| 0 <= i < |front| && front[i] == entry;
      assert stored[i] == entry;
    }
  }

  // ----- what the inputs are -----

  function Relevant(t: Tree): set<string> {
    set path | path in t.tracked && !t.skips(path)
  }

  /** Pathlib never makes a path longer, and leaves the paths git knows as they are; digests neither collide nor hold white space. */
  ghost predicate Sane(t: Tree) {
    && Injective(t.hash) && (forall content :: Survives(t, FileSignature(t, content)))
    && (forall path :: path != "" ==> |t.posix(path)| <= |path|)
    && (forall path <- t.tracked :: t.posix(path) == path && path !in {"", "."})
  }

  /** The notes were taken from this index, and a file whose state signature is still the same has not changed. */
  ghost predicate Noted(t: Tree, notes: Notes, stateOf: string -> string) {
    && Sane(t)
    && UniquePaths(notes.files) && UniquePaths(notes.content)
    && PathsOf(notes.files) == PathsOf(notes.content) == Relevant(t)
    && (forall entry <- notes.content :: entry.0 in t.tracked && entry.1 == FileSignature(t, t.tracked[entry.0]))
    && (forall entry <- notes.files :: Survives(t, entry.1) && entry.1 != "")
    && (forall entry <- notes.files :: entry.0 in t.tracked && IsFile(t, entry.0) && stateOf(entry.0) == entry.1 ==> t.work[entry.0].content == t.tracked[entry.0])
  }

  /** The notes read back are about the files they were taken from. */
  ghost predicate ReadRight(t: Tree, b: Baseline, stateOf: string -> string) {
    && Injective(t.hash)
    && b.files.Keys == b.content.Keys == Relevant(t)
    && (forall path <- b.content :: b.content[path] == FileSignature(t, t.tracked[path]))
    && (forall path <- b.files :: IsFile(t, path) && stateOf(path) == b.files[path] ==> t.work[path].content == t.tracked[path])
  }

  /** No relevant path begins or ends in white space. */
  ghost predicate AllSurvive(t: Tree) {
    forall path <- Relevant(t) :: Survives(t, path)
  }

  ghost predicate ReadAs(t: Tree, notes: Notes, b: Baseline) {
    ReadBack(t, notes.files) == Some(b.files) && ReadBack(t, notes.content) == Some(b.content)
  }

  lemma SurvivingNotesReadRight(t: Tree, notes: Notes, b: Baseline, stateOf: string -> string)
    requires Noted(t, notes, stateOf) && ReadAs(t, notes, b) && AllSurvive(t)
    ensures ReadRight(t, b, stateOf)
  {
    forall entry | entry in notes.files ensures Plain(t, entry.0, entry.1) {
      assert entry.0 in PathsOf(notes.files);
    }
    forall entry | entry in notes.content ensures Plain(t, entry.0, entry.1) {
      assert entry.0 in PathsOf(notes.content);
    }
    PlainNotesReadBack(t, notes.files);
    PlainNotesReadBack(t, notes.content);
    forall path | path in b.content ensures b.content[path] == FileSignature(t, t.tracked[path]) {
      var entry :| entry in notes.content && entry.0 == path;
    }
    forall path | path in b.files && IsFile(t, path) && stateOf(path) == b.files[path] ensures t.work[path].content == t.tracked[path] {
      var entry :| entry in notes.files && entry.0 == path;
    }
  }

  lemma ReadPathIsShorter(t: Tree, path: string)
    requires Sane(t) && !Survives(t, path) && Strip(path, t.isSpace) != ""
    ensures |ReadPath(t, path)| < |path|
  {
    StripKeepsInk(path, t.isSpace);
    StripIsShorter(path, t.isSpace);
  }

  lemma {:induction false} StripLeftIsSuffix(text: string, isSpace: char -> bool)
    ensures |StripLeft(text, isSpace)| <= |text| && (|StripLeft(text, isSpace)| == |text| ==> StripLeft(text, isSpace) == text)
  {
    if text != [] && isSpace(text[0]) {
      StripLeftIsSuffix(text[1..], isSpace);
    }
  }

  lemma {:induction false} StripRightIsFront(text: string, isSpace: char -> bool)
    ensures |StripRight(text, isSpace)| <= |text| && (|StripRight(text, isSpace)| == |text| ==> StripRight(text, isSpace) == text)
  {
    if text != [] && isSpace(text[|text| - 1]) {
      StripRightIsFront(text[..|text| - 1], isSpace);
    }
  }

  lemma StripIsShorter(text: string, isSpace: char -> bool)
    ensures Strip(text, isSpace) == text || |Strip(text, isSpace)| < |text|
  {
    StripLeftIsSuffix(text, isSpace);
    StripRightIsFront(StripLeft(text, isSpace), isSpace);
  }

  /** The longest of the paths that do not survive is not read back under any name. */
  lemma LongestLostPath(t: Tree) returns (lost: string)
    requires !AllSurvive(t)
    ensures lost in Relevant(t) && !Survives(t, lost)
    ensures forall path <- Relevant(t) :: !Survives(t, path) ==> |path| <= |lost|
  {
    var all := set path | path in Relevant(t) && !Survives(t, path);
    var some :| some in Relevant(t) && !Survives(t, some);
    assert some in all;
    lost := Longest(all);
  }

  lemma {:induction false} Longest(paths: set<string>) returns (longest: string)
    requires paths != {}
    ensures longest in paths && forall path <- paths :: |path| <= |longest|
  {
    var path :| path in paths;
    if paths == {path} {
      longest := path;
    } else {
      var other := Longest(paths - {path});
      longest := if |other| < |path| then path else other;
    }
  }

  lemma LostPathIsNotRead(t: Tree, notes: Notes, b: Baseline, stateOf: string -> string) returns (lost: string)
    requires Noted(t, notes, stateOf) && ReadAs(t, notes, b) && !AllSurvive(t)
    ensures lost in Relevant(t) && lost !in b.files && lost !in b.content
  {
    lost := LongestLostPath(t);
    ReadKeys(t, notes.files);
    ReadKeys(t, notes.content);
    forall path | path in Relevant(t) ensures ReadPath(t, path) != lost {
      if !Survives(t, path) {
        var entry :| entry in notes.files && entry.0 == path;
        assert Readable(t, entry.0, entry.1);
        ReadPathIsShorter(t, path);
      }
    }
  }

  /** What git lists: a tracked file that is gone (or has become a directory), one with other content, and every file it does not track. */
  ghost predicate Lists(t: Tree, e: Entry) {
    || (e.x == ' ' && e.y == 'D' && e.path in t.tracked && !IsFile(t, e.path))
    || (e.x == ' ' && e.y == 'M' && e.path in t.tracked && IsFile(t, e.path) && t.work[e.path].content != t.tracked[e.path])
    || (e.x == '?' && e.y == '?' && e.path !in t.tracked && IsFile(t, e.path))
  }

  /** The output of git status, in any order. */
  ghost predicate GitStatus(t: Tree, entries: seq<Entry>) {
    Unique(entries) && forall e :: e in entries <==> Lists(t, e)
  }

  // ----- the two computations -----

  predicate ByPathAndCode(a: Change, b: Change) {
    StringLess(a.path, b.path) || (a.path == b.path && a.code < b.code)
  }

  predicate StagedLess(a: Staged, b: Staged) {
    StringLess(a.path, b.path) || (a.path == b.path && a.code < b.code)
  }

  predicate UntrackedLess(a: Untracked, b: Untracked) {
    StringLess(a.path, b.path) || (a.path == b.path && StringLess(a.signature, b.signature))
  }

  /** The loop over the entries of git status. */
  method EntryLoop(t: Tree, entries: seq<Entry>, blobOf: string -> string) returns (state: State)
    ensures state == StatusState(t, entries, blobOf) && Reports(t, entries, blobOf, state)
  {
    SortedListsReport(t, entries, blobOf);
    var staged: seq<Staged>, unstaged: seq<Change>, untracked: seq<Untracked> := [], [], [];
    for i := 0 to |entries|
      invariant staged == StagedOf(t, entries[..i], blobOf)
      invariant unstaged == ChangesOf(t, entries[..i]) && untracked == UntrackedOf(t, entries[..i])
    {
      var e := entries[i];
      assert entries[..i + 1][..i] == entries[..i];
      if t.skips(e.path) {
        continue;
      }
      if e.x == '?' {
        if IsFile(t, e.path) {
          untracked := untracked + [Untracked(e.path, ContentSignature(t, e.path))];
        }
        continue;
      }
      if e.x != ' ' {
        staged := staged + [Staged(e.x, e.path, blobOf(e.path))];
      }
      if e.y != ' ' {
        unstaged := unstaged + [Change(e.y, e.path, ContentSignature(t, e.path))];
      }
    }
    assert entries[..|entries|] == entries;
    state := State(Sort(staged, StagedLess), Sort(unstaged, ByPathAndCode), Sort(untracked, UntrackedLess));
  }

  /**
   What the loop reports of any output of git status: of entries that are not skipped, the index column of
   those that have one, the work tree column of those that have one, and the files git does not track.
   */
  ghost predicate Reports(t: Tree, entries: seq<Entry>, blobOf: string -> string, state: State) {
    && (forall s :: s in state.staged <==>
          exists e :: e in entries && !t.skips(e.path) && e.x !in {'?', ' '} && s.code == e.x && s.path == e.path && s.blob == blobOf(e.path))
    && (forall c :: c in state.unstaged <==>
          exists e :: e in entries && !t.skips(e.path) && e.x != '?' && e.y != ' ' && c.code == e.y && c.path == e.path
                      && c.signature == ContentSignature(t, e.path))
    && (forall u :: u in state.untracked <==>
          exists e :: e in entries && !t.skips(e.path) && e.x == '?' && IsFile(t, e.path) && u.path == e.path
                      && u.signature == ContentSignature(t, e.path))
  }

  lemma {:induction false} ListsReport(t: Tree, entries: seq<Entry>, blobOf: string -> string)
    ensures Reports(t, entries, blobOf, State(StagedOf(t, entries, blobOf), ChangesOf(t, entries), UntrackedOf(t, entries)))
  {
    if entries != [] {
      ListsReport(t, entries[..|entries| - 1], blobOf);
      assert entries == entries[..|entries| - 1] + [entries[|entries| - 1]];
    }
  }

  lemma SortedListsReport(t: Tree, entries: seq<Entry>, blobOf: string -> string)
    ensures Reports(t, entries, blobOf, StatusState(t, entries, blobOf))
  {
    ListsReport(t, entries, blobOf);
    SortedMembers(StagedOf(t, entries, blobOf), StagedLess);
    SortedMembers(ChangesOf(t, entries), ByPathAndCode);
    SortedMembers(UntrackedOf(t, entries), UntrackedLess);
  }

  function StagedOf(t: Tree, entries: seq<Entry>, blobOf: string -> string): seq<Staged> {
    if entries == [] then []
    else
      var front, e := StagedOf(t, entries[..|entries| - 1], blobOf), entries[|entries| - 1];
      if t.skips(e.path) || e.x == '?' || e.x == ' ' then front else front + [Staged(e.x, e.path, blobOf(e.path))]
  }

  function ChangesOf(t: Tree, entries: seq<Entry>): seq<Change> {
    if entries == [] then []
    else
      var front, e := ChangesOf(t, entries[..|entries| - 1]), entries[|entries| - 1];
      if t.skips(e.path) || e.x == '?' || e.y == ' ' then front else front + [Change(e.y, e.path, ContentSignature(t, e.path))]
  }

  function UntrackedOf(t: Tree, entries: seq<Entry>): seq<Untracked> {
    if entries == [] then []
    else
      var front, e := UntrackedOf(t, entries[..|entries| - 1]), entries[|entries| - 1];
      if t.skips(e.path) || e.x != '?' || !IsFile(t, e.path) then front else front + [Untracked(e.path, ContentSignature(t, e.path))]
  }

  /** The files there are now, as the walk over the work tree finds them, with their state signatures. */
  function CurrentFiles(t: Tree, stateOf: string -> string): map<string, string> {
    map path | path in t.work && t.work[path].File? && !t.skips(path) :: stateOf(path)
  }

  /** A noted file that may have changed, by its state signature, and has, by its content. */
  predicate Differs(t: Tree, b: Baseline, stateOf: string -> string, path: string)
    requires path in b.files && path in b.content
  {
    var current := CurrentFiles(t, stateOf);
    !(path in current && current[path] == b.files[path]) && ContentSignature(t, path) != b.content[path]
  }

  function ChangeAt(t: Tree, path: string): Change {
    var signature := ContentSignature(t, path);
    Change(if signature == "missing" then 'D' else 'M', path, signature)
  }

  function ChangesAt(t: Tree, b: Baseline, stateOf: string -> string, paths: seq<string>): seq<Change>
    requires forall path <- paths :: path in b.files && path in b.content
  {
    if paths == [] then []
    else
      var front, path := ChangesAt(t, b, stateOf, paths[..|paths| - 1]), paths[|paths| - 1];
      if Differs(t, b, stateOf, path) then front + [ChangeAt(t, path)] else front
  }

  method CompareTracked(t: Tree, b: Baseline, stateOf: string -> string, known: seq<string>) returns (unstaged: seq<Change>)
    requires forall path <- known :: path in b.files && path in b.content
    ensures unstaged == ChangesAt(t, b, stateOf, known)
  {
    var current := CurrentFiles(t, stateOf);
    unstaged := [];
    for i := 0 to |known|
      invariant unstaged == ChangesAt(t, b, stateOf, known[..i])
    {
      var path := known[i];
      assert known[..i + 1][..i] == known[..i];
      if path in current && current[path] == b.files[path] {
        continue;
      }
      var signature := ContentSignature(t, path);
      if signature == b.content[path] {
        continue;
      }
      unstaged := unstaged + [Change(if signature == "missing" then 'D' else 'M', path, signature)];
    }
    assert known[..|known|] == known;
  }

  method ListUntracked(t: Tree, paths: seq<string>) returns (untracked: seq<Untracked>)
    ensures untracked == Mapped((path: string) => Untracked(path, ContentSignature(t, path)), paths)
  {
    untracked := [];
    for i := 0 to |paths|
      invariant |untracked| == i && forall j :: 0 <= j < i ==> untracked[j] == Untracked(paths[j], ContentSignature(t, paths[j]))
    {
      untracked := untracked + [Untracked(paths[i], ContentSignature(t, paths[i]))];
    }
  }

  /** What the comparison reports: changed noted files in path order, and every file not noted. */
  ghost predicate Compared(t: Tree, b: Baseline, stateOf: string -> string, state: State) {
    && b.files.Keys == b.content.Keys
    && state.staged == []
    && Sorted(state.unstaged, ByPathAndCode) && Tells(state.unstaged, ByPathAndCode) && Unique(state.unstaged)
    && (forall c :: c in state.unstaged <==> c.path in b.files && Differs(t, b, stateOf, c.path) && c == ChangeAt(t, c.path))
    && Sorted(state.untracked, UntrackedLess) && Tells(state.untracked, UntrackedLess) && Unique(state.untracked)
    && (forall u :: u in state.untracked <==>
          IsFile(t, u.path) && !t.skips(u.path) && u.path !in b.files && u.signature == ContentSignature(t, u.path))
  }

  /** The comparison with the baseline, path by path; it assumes an unchanged index, so nothing is staged. */
  method CompareWithBaseline(t: Tree, notes: Notes, stateOf: string -> string) returns (state: Option<State>)
    ensures var files, content := ReadBack(t, notes.files), ReadBack(t, notes.content);
            state.None? <==> files.None? || content.None? || files.value == map[] || content.value == map[] || files.value.Keys != content.value.Keys
    ensures state.Some? ==>
              Compared(t, Baseline(ReadBack(t, notes.files).value, ReadBack(t, notes.content).value), stateOf, state.value)
  {
    var files := NormalizeFiles(t, notes.files);
    var content := NormalizeFiles(t, notes.content);
    if files.None? || content.None? || files.value == map[] || content.value == map[] || files.value.Keys != content.value.Keys {
      return None;
    }
    var b := Baseline(files.value, content.value);
    var known := SortedPaths(b.files.Keys);
    var unstaged := CompareTracked(t, b, stateOf, known);
    ChangesAtAreSorted(t, b, stateOf, known);
    var others := SortedPaths(CurrentFiles(t, stateOf).Keys - b.files.Keys);
    var untracked := ListUntracked(t, others);
    ListedAreSorted(t, others, untracked);
    return Some(State([], unstaged, Sort(untracked, UntrackedLess)));
  }

  lemma {:induction false} ChangesAtMembers(t: Tree, b: Baseline, stateOf: string -> string, paths: seq<string>)
    requires forall path <- paths :: path in b.files && path in b.content
    ensures forall c :: c in ChangesAt(t, b, stateOf, paths) <==>
                        c.path in paths && c.path in b.files && c.path in b.content && Differs(t, b, stateOf, c.path) && c == ChangeAt(t, c.path)
  {
    if paths != [] {
      ChangesAtMembers(t, b, stateOf, paths[..|paths| - 1]);
    }
  }

  ghost predicate PathsIncrease(changes: seq<Change>) {
    forall i, j :: 0 <= i < j < |changes| ==> StringLess(changes[i].path, changes[j].path)
  }

  lemma {:induction false} ChangesAtIncrease(t: Tree, b: Baseline, stateOf: string -> string, paths: seq<string>)
    requires IncreasingPaths(paths) && forall path <- paths :: path in b.files && path in b.content
    ensures PathsIncrease(ChangesAt(t, b, stateOf, paths))
  {
    if paths != [] {
      var n := |paths| - 1;
      ChangesAtIncrease(t, b, stateOf, paths[..n]);
      ChangesAtMembers(t, b, stateOf, paths[..n]);
      var front := ChangesAt(t, b, stateOf, paths[..n]);
      forall i | 0 <= i < |front| ensures StringLess(front[i].path, paths[n]) {
        assert front[i] in front;
        var k :| 0 <= k < n && paths[..n][k] == front[i].path;
      }
    }
  }

  lemma IncreasingIsSorted(changes: seq<Change>)
    requires PathsIncrease(changes)
    ensures Sorted(changes, ByPathAndCode) && Tells(changes, ByPathAndCode) && Unique(changes)
  {
    forall i, j | 0 <= i < j < |changes| ensures ByPathAndCode(changes[i], changes[j]) && !ByPathAndCode(changes[j], changes[i]) && changes[i] != changes[j] {
      StringLessIsTotal(changes[i].path, changes[j].path);
    }
  }

  lemma ChangesAtAreSorted(t: Tree, b: Baseline, stateOf: string -> string, known: seq<string>)
    requires IncreasingPaths(known) && b.files.Keys == b.content.Keys && forall path :: path in known <==> path in b.files
    ensures var changes := ChangesAt(t, b, stateOf, known);
            && Sorted(changes, ByPathAndCode) && Tells(changes, ByPathAndCode) && Unique(changes)
            && forall c :: c in changes <==> c.path in b.files && Differs(t, b, stateOf, c.path) && c == ChangeAt(t, c.path)
  {
    ChangesAtIncrease(t, b, stateOf, known);
    IncreasingIsSorted(ChangesAt(t, b, stateOf, known));
    ChangesAtMembers(t, b, stateOf, known);
  }

  lemma UntrackedOrder(us: seq<Untracked>)
    ensures StrictWeakOrder(UntrackedLess) && Tells(us, UntrackedLess)
  {
    forall a: Untracked, b: Untracked
      ensures !(UntrackedLess(a, b) && UntrackedLess(b, a)) && (a == b || UntrackedLess(a, b) || UntrackedLess(b, a))
    {
      StringLessIsTotal(a.path, b.path);
      StringLessIsTotal(a.signature, b.signature);
    }
    forall a: Untracked, b: Untracked, c: Untracked | UntrackedLess(a, c) ensures UntrackedLess(a, b) || UntrackedLess(b, c) {
      StringLessIsTotal(a.path, b.path);
      if a.path == c.path {
        StringLessSplits(a.signature, b.signature, c.signature);
      }
      if StringLess(a.path, c.path) {
        StringLessSplits(a.path, b.path, c.path);
      }
    }
  }

  lemma ListedAreSorted(t: Tree, paths: seq<string>, untracked: seq<Untracked>)
    requires IncreasingPaths(paths)
    requires untracked == Mapped((path: string) => Untracked(path, ContentSignature(t, path)), paths)
    ensures var sorted := Sort(untracked, UntrackedLess);
            && Sorted(sorted, UntrackedLess) && Tells(sorted, UntrackedLess) && Unique(sorted)
            && forall u :: u in sorted <==> u.path in paths && u.signature == ContentSignature(t, u.path)
  {
    var sorted := Sort(untracked, UntrackedLess);
    UntrackedOrder(sorted);
    SortSorts(untracked, UntrackedLess);
    SortedMembers(untracked, UntrackedLess);
    forall i, j | 0 <= i < j < |untracked| ensures untracked[i] != untracked[j] {
      StringLessIsTotal(paths[i], paths[j]);
    }
    UniquePermutation(untracked, sorted);
    forall u: Untracked | u.path in paths && u.signature == ContentSignature(t, u.path) ensures u in untracked {
      var i :| 0 <= i < |paths| && paths[i] == u.path;
      assert untracked[i] == u;
    }
    forall u | u in untracked ensures u.path in paths && u.signature == ContentSignature(t, u.path) {
      var i :| 0 <= i < |untracked| && untracked[i] == u;
    }
  }

  ghost predicate IncreasingPaths(paths: seq<string>) {
    forall i, j :: 0 <= i < j < |paths| ==> StringLess(paths[i], paths[j])
  }

  predicate PathLess(a: string, b: string) { StringLess(a, b) }

  lemma PathOrder()
    ensures StrictWeakOrder(PathLess)
  {
    forall a: string, b: string ensures !(PathLess(a, b) && PathLess(b, a)) {
      StringLessIsTotal(a, b);
    }
    forall a: string, b: string, c: string | PathLess(a, c) ensures PathLess(a, b) || PathLess(b, c) {
      StringLessSplits(a, b, c);
    }
  }

  lemma SortedPathsIncrease(order: seq<string>)
    requires Unique(order)
    ensures IncreasingPaths(Sort(order, PathLess)) && forall path :: path in Sort(order, PathLess) <==> path in order
  {
    var sorted := Sort(order, PathLess);
    PathOrder();
    SortSorts(order, PathLess);
    SortedMembers(order, PathLess);
    UniquePermutation(order, sorted);
    forall i, j | 0 <= i < j < |sorted| ensures StringLess(sorted[i], sorted[j]) {
      StringLessIsTotal(sorted[i], sorted[j]);
      assert !PathLess(sorted[j], sorted[i]);
    }
  }

  method SortedPaths(paths: set<string>) returns (sorted: seq<string>)
    ensures IncreasingPaths(sorted) && forall path :: path in sorted <==> path in paths
  {
    var order: seq<string> := [];
    var rest := paths;
    while rest != {}
      invariant Unique(order) && forall path :: path in paths <==> path in rest || path in order
      invariant forall path <- order :: path !in rest
      decreases rest
    {
      var path :| path in rest;
      assert path !in order;
      order, rest := order + [path], rest - {path};
    }
    SortedPathsIncrease(order);
    sorted := Sort(order, PathLess);
  }

  // ----- agreement -----

  /** The state the loop over the entries of git status computes. */
  function StatusState(t: Tree, entries: seq<Entry>, blobOf: string -> string): State {
    State(Sort(StagedOf(t, entries, blobOf), StagedLess), Sort(ChangesOf(t, entries), ByPathAndCode), Sort(UntrackedOf(t, entries), UntrackedLess))
  }

  /** Only work tree changes and untracked files: the index is that of the last commit. */
  ghost predicate NothingStaged(entries: seq<Entry>) {
    forall e <- entries :: e.x == ' ' || (e.x == '?' && e.y == '?')
  }

  lemma {:induction false} NoStagedEntries(t: Tree, entries: seq<Entry>, blobOf: string -> string)
    requires NothingStaged(entries)
    ensures StagedOf(t, entries, blobOf) == []
  {
    if entries != [] {
      NoStagedEntries(t, entries[..|entries| - 1], blobOf);
    }
  }

  function ChangeEntry(c: Change): Entry {
    Entry(' ', c.code, c.path)
  }

  lemma {:induction false} ChangesOfMembers(t: Tree, entries: seq<Entry>)
    requires NothingStaged(entries) && Unique(entries)
    ensures forall c :: c in ChangesOf(t, entries) <==>
                        ChangeEntry(c) in entries && c.code != ' ' && !t.skips(c.path) && c.signature == ContentSignature(t, c.path)
    ensures Unique(ChangesOf(t, entries))
  {
    if entries != [] {
      var n := |entries| - 1;
      ChangesOfMembers(t, entries[..n]);
      assert entries == entries[..n] + [entries[n]];
      var e := entries[n];
      assert e !in entries[..n];
      if e.x == ' ' {
        assert ChangeEntry(Change(e.y, e.path, ContentSignature(t, e.path))) == e;
      }
    }
  }

  lemma {:induction false} UntrackedOfMembers(t: Tree, entries: seq<Entry>)
    requires NothingStaged(entries) && Unique(entries)
    ensures forall u :: u in UntrackedOf(t, entries) <==>
                        Entry('?', '?', u.path) in entries && !t.skips(u.path) && IsFile(t, u.path) && u.signature == ContentSignature(t, u.path)
    ensures Unique(UntrackedOf(t, entries))
  {
    if entries != [] {
      var n := |entries| - 1;
      UntrackedOfMembers(t, entries[..n]);
      assert entries == entries[..n] + [entries[n]];
      assert entries[n] !in entries[..n];
    }
  }

  lemma SignatureDiffers(t: Tree, path: string)
    requires Injective(t.hash) && path in t.tracked
    ensures ContentSignature(t, path) == FileSignature(t, t.tracked[path]) <==> IsFile(t, path) && t.work[path].content == t.tracked[path]
  {
    var noted := FileSignature(t, t.tracked[path]);
    assert noted[0] == 's' && noted[7..] == t.hash(t.tracked[path]);
    if IsFile(t, path) {
      assert ContentSignature(t, path)[7..] == t.hash(t.work[path].content);
    }
  }

  /** A state signature that did not change saves reading the file and never hides a change. */
  lemma DiffersIffChanged(t: Tree, b: Baseline, stateOf: string -> string, path: string)
    requires ReadRight(t, b, stateOf) && path in b.files
    ensures Differs(t, b, stateOf, path) <==> !(IsFile(t, path) && t.work[path].content == t.tracked[path])
  {
    SignatureDiffers(t, path);
  }

  predicate DirectoryAt(t: Tree, path: string) {
    path in t.work && t.work[path].Directory?
  }

  /** A tracked file has become a directory. */
  ghost predicate FileBecameDirectory(t: Tree) {
    exists path :: path in t.tracked && !t.skips(path) && DirectoryAt(t, path)
  }

  /** What each way reports about one noted file. */
  lemma SameChangeUnlessDirectory(t: Tree, b: Baseline, stateOf: string -> string, entries: seq<Entry>, c: Change)
    requires ReadRight(t, b, stateOf) && GitStatus(t, entries) && !DirectoryAt(t, c.path)
    ensures c.path in b.files && Differs(t, b, stateOf, c.path) && c == ChangeAt(t, c.path)
            <==> ChangeEntry(c) in entries && c.code != ' ' && !t.skips(c.path) && c.signature == ContentSignature(t, c.path)
  {
    assert ChangeEntry(c) in entries <==> Lists(t, ChangeEntry(c));
    if c.path in b.files {
      DiffersIffChanged(t, b, stateOf, c.path);
      CodeOf(t, c.path);
    }
  }

  lemma CodeOf(t: Tree, path: string)
    requires !DirectoryAt(t, path)
    ensures ContentSignature(t, path) == "missing" <==> !IsFile(t, path)
  {
    if IsFile(t, path) {
      assert ContentSignature(t, path)[0] == 's';
    }
  }

  lemma StatusHasNothingStaged(t: Tree, entries: seq<Entry>)
    requires GitStatus(t, entries)
    ensures NothingStaged(entries)
  {
  }

  lemma SortedChanges(t: Tree, changes: seq<Change>)
    requires forall c <- changes :: c.signature == ContentSignature(t, c.path)
    ensures Sorted(Sort(changes, ByPathAndCode), ByPathAndCode)
  {
    ChangeOrder();
    SortSorts(changes, ByPathAndCode);
  }

  lemma ChangeOrder()
    ensures StrictWeakOrder(ByPathAndCode)
  {
    forall a: Change, b: Change ensures !(ByPathAndCode(a, b) && ByPathAndCode(b, a)) {
      StringLessIsTotal(a.path, b.path);
    }
    forall a: Change, b: Change, c: Change | ByPathAndCode(a, c) ensures ByPathAndCode(a, b) || ByPathAndCode(b, c) {
      StringLessIsTotal(a.path, b.path);
      StringLessIsTotal(b.path, c.path);
      if StringLess(a.path, c.path) {
        StringLessSplits(a.path, b.path, c.path);
      }
    }
  }

  lemma UntrackedAgree(t: Tree, b: Baseline, stateOf: string -> string, entries: seq<Entry>, blobOf: string -> string, compared: State)
    requires ReadRight(t, b, stateOf) && GitStatus(t, entries) && Compared(t, b, stateOf, compared)
    ensures compared.untracked == StatusState(t, entries, blobOf).untracked
  {
    StatusHasNothingStaged(t, entries);
    UntrackedOfMembers(t, entries);
    var listed := UntrackedOf(t, entries);
    forall u ensures u in listed <==> u in compared.untracked {
      assert Entry('?', '?', u.path) in entries <==> Lists(t, Entry('?', '?', u.path));
    }
    SameMembersSameMultiset(compared.untracked, listed);
    UntrackedOrder(listed);
    SortSorts(listed, UntrackedLess);
    SortedPermutationsAgree(compared.untracked, Sort(listed, UntrackedLess), UntrackedLess);
  }

  lemma ChangesAgreeWithoutDirectories(t: Tree, b: Baseline, stateOf: string -> string, entries: seq<Entry>, blobOf: string -> string, compared: State)
    requires ReadRight(t, b, stateOf) && GitStatus(t, entries) && Compared(t, b, stateOf, compared) && !FileBecameDirectory(t)
    ensures compared.unstaged == StatusState(t, entries, blobOf).unstaged
  {
    StatusHasNothingStaged(t, entries);
    ChangesOfMembers(t, entries);
    var listed := ChangesOf(t, entries);
    forall c ensures c in listed <==> c in compared.unstaged {
      if DirectoryAt(t, c.path) {
        assert ChangeEntry(c) in entries <==> Lists(t, ChangeEntry(c));
      } else {
        SameChangeUnlessDirectory(t, b, stateOf, entries, c);
      }
    }
    SameMembersSameMultiset(compared.unstaged, listed);
    SortedChanges(t, listed);
    SortedPermutationsAgree(compared.unstaged, Sort(listed, ByPathAndCode), ByPathAndCode);
  }

  lemma GitCallsItDeleted(t: Tree, entries: seq<Entry>, path: string)
    requires GitStatus(t, entries) && path in t.tracked && !t.skips(path) && DirectoryAt(t, path)
    ensures Change('D', path, "nonfile") in ChangesOf(t, entries)
  {
    StatusHasNothingStaged(t, entries);
    ChangesOfMembers(t, entries);
    assert Lists(t, ChangeEntry(Change('D', path, "nonfile")));
  }

  lemma ComparisonCallsItModified(t: Tree, b: Baseline, stateOf: string -> string, compared: State, path: string)
    requires Compared(t, b, stateOf, compared) && DirectoryAt(t, path)
    ensures Change('D', path, "nonfile") !in compared.unstaged
  {
    assert ChangeAt(t, path).code == 'M';
  }

  lemma ChangesDisagreeOnDirectory(t: Tree, b: Baseline, stateOf: string -> string, entries: seq<Entry>, blobOf: string -> string, compared: State)
    requires GitStatus(t, entries) && Compared(t, b, stateOf, compared) && FileBecameDirectory(t)
    ensures compared.unstaged != StatusState(t, entries, blobOf).unstaged
  {
    var path :| path in t.tracked && !t.skips(path) && DirectoryAt(t, path);
    GitCallsItDeleted(t, entries, path);
    SortedMembers(ChangesOf(t, entries), ByPathAndCode);
    ComparisonCallsItModified(t, b, stateOf, compared, path);
  }

  lemma UnstagedNeedsBaseline(t: Tree, b: Baseline, stateOf: string -> string, compared: State, c: Change)
    requires Compared(t, b, stateOf, compared) && c.path !in b.files
    ensures c !in compared.unstaged
  {
  }

  /** A tracked file whose path is not read back counts as untracked when it is there, and its removal is not seen when it is not. */
  lemma LostPathDisagrees(t: Tree, b: Baseline, stateOf: string -> string, entries: seq<Entry>, blobOf: string -> string, compared: State, lost: string)
    requires GitStatus(t, entries) && Compared(t, b, stateOf, compared) && lost in Relevant(t) && lost !in b.files
    ensures compared != StatusState(t, entries, blobOf)
  {
    StatusHasNothingStaged(t, entries);
    if IsFile(t, lost) {
      UntrackedOfMembers(t, entries);
      SortedMembers(UntrackedOf(t, entries), UntrackedLess);
      var u := Untracked(lost, ContentSignature(t, lost));
      assert u in compared.untracked;
      assert !Lists(t, Entry('?', '?', lost));
      assert u !in StatusState(t, entries, blobOf).untracked;
    } else {
      ChangesOfMembers(t, entries);
      SortedMembers(ChangesOf(t, entries), ByPathAndCode);
      var c := Change('D', lost, ContentSignature(t, lost));
      assert Lists(t, ChangeEntry(c));
      assert c in StatusState(t, entries, blobOf).unstaged;
      UnstagedNeedsBaseline(t, b, stateOf, compared, c);
    }
  }

  /**
   For any edits, deletions and new files, whenever the comparison gives an answer: it agrees with git
   status exactly when no relevant path begins or ends in white space, which is lost when the notes are
   read back, and no tracked file has become a directory, which git calls deleted and the comparison
   modified.  Without such a path what is staged and what is untracked agree in any case.
   */
  lemma FastPathAgrees(t: Tree, notes: Notes, b: Baseline, stateOf: string -> string, entries: seq<Entry>, blobOf: string -> string, compared: State)
    requires Noted(t, notes, stateOf) && ReadAs(t, notes, b) && GitStatus(t, entries) && Compared(t, b, stateOf, compared)
    ensures compared.staged == StatusState(t, entries, blobOf).staged
    ensures AllSurvive(t) ==> compared.untracked == StatusState(t, entries, blobOf).untracked
    ensures compared == StatusState(t, entries, blobOf) <==> AllSurvive(t) && !FileBecameDirectory(t)
  {
    StatusHasNothingStaged(t, entries);
    NoStagedEntries(t, entries, blobOf);
    if !AllSurvive(t) {
      var lost := LostPathIsNotRead(t, notes, b, stateOf);
      LostPathDisagrees(t, b, stateOf, entries, blobOf, compared, lost);
    } else {
      SurvivingNotesReadRight(t, notes, b, stateOf);
      UntrackedAgree(t, b, stateOf, entries, blobOf, compared);
      if FileBecameDirectory(t) {
        ChangesDisagreeOnDirectory(t, b, stateOf, entries, blobOf, compared);
      } else {
        ChangesAgreeWithoutDirectories(t, b, stateOf, entries, blobOf, compared);
      }
    }
  }

  /** An unchanged work tree with one tracked file whose name ends in a space: reported as deleted under a name without it, and as untracked. */
  lemma ATrailingSpaceIsLost(hash: string -> string, stateOf: string -> string, compared: State)
    requires Injective(hash) && stateOf("a ") !in {"", " "} && Strip(stateOf("a "), (c: char) => c == ' ') == stateOf("a ")
    requires forall content :: Strip("sha256:" + hash(content), (c: char) => c == ' ') == "sha256:" + hash(content)
    requires var t := Tree(map["a " := "x"], map["a " := File("x")], (p: string) => false, hash, (c: char) => c == ' ', (p: string) => p);
             Compared(t, Baseline(map["a" := stateOf("a ")], map["a" := FileSignature(t, "x")]), stateOf, compared)
    ensures var t := Tree(map["a " := "x"], map["a " := File("x")], (p: string) => false, hash, (c: char) => c == ' ', (p: string) => p);
            && ReadBack(t, [("a ", stateOf("a "))]) == Some(map["a" := stateOf("a ")])
            && GitStatus(t, [])
            && Change('D', "a", "missing") in compared.unstaged && Untracked("a ", FileSignature(t, "x")) in compared.untracked
  {
    var t := Tree(map["a " := "x"], map["a " := File("x")], (p: string) => false, hash, (c: char) => c == ' ', (p: string) => p);
    assert "a "[..1] == "a" && [("a ", stateOf("a "))][..0] == [];
    assert StripLeft("a ", t.isSpace) == "a " && StripRight("a ", t.isSpace) == "a";
    assert FileSignature(t, "x")[0] == 's';
    assert ChangeAt(t, "a") == Change('D', "a", "missing");
  }
}
