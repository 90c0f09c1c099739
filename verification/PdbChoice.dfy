/**
  Which PDB scripts/rsod-decode.py uses for an image, and what it says when it
  uses none.
 */
module PdbChoice {
  import opened Bytes
  import opened Outcomes
  import opened PyText
  import opened PdbIdentity

  const NULL_GUID := "{00000000-0000-0000-0000-000000000000}"

  /**
    What the decision depends on: whether there is an image with a readable
    header, what the header records, the directory, and the tools at hand.
   */
  datatype Scene = Scene(
    readable: bool, guid: string, age: nat, embedded: string, hasMachine: bool,
    named: string, directory: string, listing: seq<string>, files: set<string>,
    identity: string -> Option<Identity>, absolute: string -> string,
    hasElf: bool, staged: string, hasTool: bool)

  function InDirectory(s: Scene, entry: string): string
  {
    s.directory + "/" + entry
  }

  /** The identity the image asks for; an all-zero GUID is the absence of one. */
  function Wanted(s: Scene): Option<Identity>
  {
    if s.guid != "" && s.guid != NULL_GUID then Some(Identity(s.guid, s.age)) else None
  }

  /** `entry.lower().endswith(".pdb")`. */
  predicate IsPdbName(entry: string)
  {
    var n := |entry|;
    n >= 4 && entry[n - 4] == '.' && entry[n - 3] in {'p', 'P'} && entry[n - 2] in {'d', 'D'} && entry[n - 1] in {'b', 'B'}
  }

  lemma IsPdbNameIff(entry: string)
    ensures IsPdbName(entry) <==>
      |entry| >= 4 && entry[|entry| - 4..] in {".pdb", ".pdB", ".pDb", ".pDB", ".Pdb", ".PdB", ".PDb", ".PDB"}
  {
    if |entry| >= 4 {
      var n := |entry|;
      assert entry[n - 4..] == [entry[n - 4], entry[n - 3], entry[n - 2], entry[n - 1]];
    }
  }

  /** The first PDB of the listing, in its order, with the wanted identity. */
  function FirstMatch(s: Scene, entries: seq<string>, want: Identity): Option<string>
  {
    if entries == [] then None
    else if IsPdbName(entries[0]) && s.identity(InDirectory(s, entries[0])) == Some(want) then Some(entries[0])
    else FirstMatch(s, entries[1..], want)
  }

  datatype Source = NamedByUser | BesideImage | ByGuid

  datatype Candidate = NoCandidate | Candidate(path: string, source: Source)

  function Choose(s: Scene): Candidate
  {
    if s.named != "" then Candidate(s.named, NamedByUser)
    else if s.embedded != "" && InDirectory(s, s.embedded) in s.files then
      Candidate(InDirectory(s, s.embedded), BesideImage)
    else
      match Wanted(s)
      case None => NoCandidate
      case Some(want) =>
        match FirstMatch(s, Sorted(s.listing), want)
        case None => NoCandidate
        case Some(entry) => Candidate(InDirectory(s, entry), ByGuid)
  }

  datatype Note = NoNote | NotFound | ImageNamesNone | DifferentBuild | CannotPresent | NoRecordedName | NoTool

  /** A PDB of the directory that carries the image's GUID and age. */
  ghost predicate IsTwin(s: Scene, entry: string)
  {
    && entry in s.listing && IsPdbName(entry)
    && s.identity(s.directory + "/" + entry) == Some(Identity(s.guid, s.age))
  }

  /** The alphabetically first of them. */
  ghost predicate IsFirstTwin(s: Scene, entry: string)
  {
    IsTwin(s, entry) && forall other :: IsTwin(s, other) ==> StringLeq(entry, other)
  }

  /** What is chosen, and for which reason. */
  ghost predicate IsChosen(s: Scene, path: string, source: Source)
  {
    match source
    case NamedByUser => s.named != "" && path == s.named
    case BesideImage =>
      s.named == "" && s.embedded != "" && path == s.directory + "/" + s.embedded && path in s.files
    case ByGuid =>
      && s.named == "" && (s.embedded == "" || s.directory + "/" + s.embedded !in s.files)
      && s.guid != "" && s.guid != NULL_GUID
      && exists entry :: IsFirstTwin(s, entry) && path == s.directory + "/" + entry
  }

  lemma {:induction false} FirstMatchIs(s: Scene, entries: seq<string>, want: Identity)
    requires Ascends(entries)
    ensures FirstMatch(s, entries, want) == None <==>
      forall e :: e in entries && IsPdbName(e) ==> s.identity(InDirectory(s, e)) != Some(want)
    ensures FirstMatch(s, entries, want).Some? ==>
      var first := FirstMatch(s, entries, want).value;
      && first in entries && IsPdbName(first) && s.identity(InDirectory(s, first)) == Some(want)
      && forall e :: e in entries && IsPdbName(e) && s.identity(InDirectory(s, e)) == Some(want) ==> StringLeq(first, e)
  {
    if entries != [] {
      TailAscends(entries);
      FirstMatchIs(s, entries[1..], want);
      assert entries == [entries[0]] + entries[1..];
      forall e | e in entries
        ensures StringLeq(entries[0], e)
      {
        FirstIsLeast(entries, e);
      }
    }
  }

  lemma MatchIsFirstTwin(s: Scene)
    ensures var found := FirstMatch(s, Sorted(s.listing), Identity(s.guid, s.age));
      && (found == None <==> forall e :: !IsTwin(s, e))
      && (found.Some? ==> IsFirstTwin(s, found.value))
  {
    SortedAscends(s.listing);
    FirstMatchIs(s, Sorted(s.listing), Identity(s.guid, s.age));
    forall e
      ensures IsTwin(s, e) <==> e in Sorted(s.listing) && IsPdbName(e) && s.identity(InDirectory(s, e)) == Some(Identity(s.guid, s.age))
    {
    }
  }

  /** The user's choice goes first, then the recorded name beside the image, then the first twin in the directory. */
  lemma ChooseIs(s: Scene)
    ensures Choose(s).Candidate? ==> IsChosen(s, Choose(s).path, Choose(s).source)
  {
    MatchIsFirstTwin(s);
    if Choose(s).Candidate? && Choose(s).source == ByGuid {
      var entry := FirstMatch(s, Sorted(s.listing), Identity(s.guid, s.age)).value;
      assert IsFirstTwin(s, entry) && Choose(s).path == s.directory + "/" + entry;
    }
  }

  /** Nothing is chosen exactly when none of the three is there. */
  lemma NothingChosenIff(s: Scene)
    ensures Choose(s) == NoCandidate <==>
      && s.named == "" && (s.embedded == "" || s.directory + "/" + s.embedded !in s.files)
      && (s.guid == "" || s.guid == NULL_GUID || forall e :: !IsTwin(s, e))
  {
    MatchIsFirstTwin(s);
  }

  /** The fields of an image that deciding on a PDB fills in. */
  datatype Fields = Fields(pdbFile: string, pdbSource: Option<Source>, symbolizePath: string, note: Note, mismatches: seq<Identity>)

  class ImageSymbols {
    var pdbFile: string
    var pdbSource: Option<Source>
    var symbolizePath: string
    var note: Note
    var mismatches: seq<Identity>

    constructor ()
      ensures State() == Fields("", None, "", NoNote, [])
    {
      pdbFile, pdbSource, symbolizePath, note, mismatches := "", None, "", NoNote, [];
    }

    ghost function State(): Fields
      reads this
    {
      Fields(pdbFile, pdbSource, symbolizePath, note, mismatches)
    }

    /**
      `_resolve_pdb`. A PDB that is used is the one the user named or, failing
      that, the one beside the image under the recorded name or, failing that,
      the first of the directory with the image's GUID and age.
     */
    method ResolvePdb(s: Scene)
      modifies this
      ensures !s.readable ==> State() == old(State())
      ensures s.readable && Choose(s) == NoCandidate ==>
        State() == old(State()).(note := if s.hasElf then old(note) else if s.embedded != "" then NotFound
                                         else if s.hasMachine then ImageNamesNone else old(note))
      ensures s.readable && Choose(s).Candidate? ==>
        State() == Decided(s, Choose(s).path, Choose(s).source, old(State()))
      ensures old(pdbSource) == None && pdbSource.Some? ==>
        && s.readable && IsChosen(s, pdbFile, pdbSource.value)
        && s.embedded != "" && s.hasTool && note == old(note) && mismatches == old(mismatches)
        && (s.absolute(pdbFile) == s.directory + "/" + s.embedded || (s.staged != "" && symbolizePath == s.staged))
        && (s.guid != "" && s.guid != NULL_GUID ==> s.identity(pdbFile) in {None, Some(Identity(s.guid, s.age))})
      ensures s.named != "" && old(pdbSource) == None && pdbSource.Some? ==> pdbFile == s.named && pdbSource == Some(NamedByUser)
      ensures (s.named == "" && s.embedded != "" && s.directory + "/" + s.embedded in s.files && old(pdbSource) == None && pdbSource.Some?) ==>
        pdbFile == s.directory + "/" + s.embedded && pdbSource == Some(BesideImage)
    {
      if !s.readable {
        return;
      }
      var want := Wanted(s);
      var candidate := NoCandidate;
      if s.named != "" {
        candidate := Candidate(s.named, NamedByUser);
      } else if s.embedded != "" && InDirectory(s, s.embedded) in s.files {
        candidate := Candidate(InDirectory(s, s.embedded), BesideImage);
      } else if want.Some? {
        var found := ScanDirectory(s, want.value);
        if found.Some? {
          candidate := Candidate(InDirectory(s, found.value), ByGuid);
        }
      }
      ChooseIs(s);
      if candidate == NoCandidate {
        if s.hasElf {
          return;
        }
        if s.embedded != "" {
          note := NotFound;
        } else if s.hasMachine {
          note := ImageNamesNone;
        }
        return;
      }
      Decide(s, candidate.path, candidate.source);
    }

    /** The rest of it, once there is a candidate. */
    method Decide(s: Scene, path: string, source: Source)
      modifies this
      ensures State() == Decided(s, path, source, old(State()))
    {
      var want := Wanted(s);
      var got := if want.Some? then s.identity(path) else None;
      if want.Some? && got.Some? && got != want {
        mismatches := mismatches + [got.value];
        note := DifferentBuild;
        return;
      }
      if s.embedded != "" && s.absolute(path) != InDirectory(s, s.embedded) {
        if s.staged == "" {
          note := CannotPresent;
          return;
        }
        symbolizePath := s.staged;
      } else if s.embedded == "" {
        note := NoRecordedName;
        return;
      }
      if !s.hasTool {
        note := NoTool;
        return;
      }
      pdbFile, pdbSource := path, Some(source);
    }
  }

  /** The loop over the directory. */
  method ScanDirectory(s: Scene, want: Identity) returns (found: Option<string>)
    ensures found == FirstMatch(s, Sorted(s.listing), want)
  {
    var entries := Sorted(s.listing);
    for i := 0 to |entries|
      invariant FirstMatch(s, entries[i..], want) == FirstMatch(s, entries, want)
    {
      assert entries[i..][1..] == entries[i + 1..];
      if !IsPdbName(entries[i]) {
        continue;
      }
      if s.identity(InDirectory(s, entries[i])) == Some(want) {
        return Some(entries[i]);
      }
    }
    return None;
  }

  /** A readable PDB that is not the one the image was built against. */
  predicate Contradicted(s: Scene, path: string)
  {
    Wanted(s).Some? && s.identity(path).Some? && s.identity(path) != Wanted(s)
  }

  /** The PDB lies where the symbolizer looks for it. */
  predicate InPlace(s: Scene, path: string)
  {
    s.absolute(path) == InDirectory(s, s.embedded)
  }

  /** What a candidate leads to. */
  function Decided(s: Scene, path: string, source: Source, before: Fields): Fields
  {
    if Contradicted(s, path) then
      before.(mismatches := before.mismatches + [s.identity(path).value], note := DifferentBuild)
    else if s.embedded == "" then before.(note := NoRecordedName)
    else if !InPlace(s, path) && s.staged == "" then before.(note := CannotPresent)
    else
      var shown := if InPlace(s, path) then before else before.(symbolizePath := s.staged);
      if s.hasTool then shown.(pdbFile := path, pdbSource := Some(source)) else shown.(note := NoTool)
  }

  /** A candidate is used, and nothing said against it, exactly when it can be; otherwise it is not, and one note says why. */
  lemma UsedIffUsable(s: Scene, path: string, source: Source, before: Fields)
    requires before.pdbSource == None && before.note == NoNote
    ensures var after := Decided(s, path, source, before);
      && (after.pdbSource == Some(source) <==> after.note == NoNote) && (after.pdbSource.Some? ==> after.pdbFile == path)
      && (after.note == NoNote <==>
            && s.embedded != "" && s.hasTool && (s.absolute(path) == s.directory + "/" + s.embedded || s.staged != "")
            && (s.guid == "" || s.guid == NULL_GUID || s.identity(path) in {None, Some(Identity(s.guid, s.age))}))
      && (after.note == DifferentBuild <==> after.mismatches != before.mismatches)
      && (after.note == DifferentBuild <==>
            s.guid != "" && s.guid != NULL_GUID && s.identity(path) !in {None, Some(Identity(s.guid, s.age))})
      && (after.note == NoRecordedName ==> s.embedded == "") && (after.note == NoTool ==> s.embedded != "" && !s.hasTool)
      && (after.note == CannotPresent ==> s.staged == "" && s.absolute(path) != s.directory + "/" + s.embedded)
  {
  }

  /**
    Against an image that records a GUID, a PDB whose identity the reader
    returns is used only if all 16 bytes of its GUID and its age agree;
    `contents` is what the files hold, whole PDBs or not.
   */
  lemma UsedPdbAgrees(s: Scene, contents: map<string, bytes>, raw: bytes, path: string, source: Source, before: Fields)
    requires |raw| == 16 && s.guid == GuidString(raw) && s.guid != NULL_GUID
    requires before.pdbSource == None && Decided(s, path, source, before).pdbSource.Some?
    requires path in contents && s.identity(path) == ReadIdentity(contents[path]) != None
    ensures ReadRawIdentity(contents[path]) == Some(RawIdentity(raw, s.age))
  {
    var got := ReadRawIdentity(contents[path]).value;
    assert Join(GuidParts(raw))[0] == '{';
    GuidStringInjective(got.guid, raw);
  }

  /** A PDB found by scanning always has the wanted identity, and one is found if there is one. */
  lemma RenamedPdbIsFound(s: Scene, entry: string)
    requires s.guid != "" && s.guid != NULL_GUID && s.named == "" && s.directory + "/" + s.embedded !in s.files
    requires IsTwin(s, entry)
    ensures Choose(s).Candidate? && Choose(s).source == ByGuid
    ensures s.identity(Choose(s).path) == Some(Identity(s.guid, s.age)) && !Contradicted(s, Choose(s).path)
  {
    NothingChosenIff(s);
    ChooseIs(s);
  }
}
