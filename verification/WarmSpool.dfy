/**
 The spool of the warm daemon: requests are files, a claim renames a request to its working name, and
 the working file goes when processing has returned or raised.  A crash may come between any two steps.
 */
module WarmSpool {
  import opened Prelude
  import opened Segments

  const Json := ".json"
  const Working := ".working"

  predicate EndsWith(name: string, suffix: string) {
    |name| >= |suffix| && name[|name| - |suffix|..] == suffix
  }

  /** The name with its last extension replaced; a name without one, such as ".json", only gets longer. */
  function WithSuffix(name: string, suffix: string): string {
    var dot := LastPlace(name, '.', 0, |name|);
    if 0 < dot < |name| - 1 then name[..dot] + suffix else name + suffix
  }

  function ClaimName(request: string): string {
    WithSuffix(request, Working)
  }

  function RequestName(claim: string): string {
    WithSuffix(claim, Json)
  }

  predicate IsRequest(name: string) { EndsWith(name, Json) }

  predicate IsClaim(name: string) { EndsWith(name, Working) }

  lemma LastDot(name: string, stem: string, extension: string)
    requires name == stem + "." + extension && '.' !in extension
    ensures LastPlace(name, '.', 0, |name|) == |stem|
  {
    assert name[|stem|] == '.';
    forall i | |stem| < i < |name| ensures name[i] != '.' {
      assert name[i] == extension[i - |stem| - 1];
    }
  }

  lemma SuffixSwapped(stem: string, extension: string, suffix: string)
    requires '.' !in extension && extension != ""
    ensures WithSuffix(stem + "." + extension, suffix) == if stem != "" then stem + suffix else "." + extension + suffix
  {
    LastDot(stem + "." + extension, stem, extension);
  }

  lemma RequestOfClaim(stem: string)
    ensures RequestName(stem + "." + "working") == if stem != "" then stem + "." + "json" else "." + "working" + Json
  {
    SuffixSwapped(stem, "working", Json);
    assert stem + Json == stem + "." + "json";
  }

  lemma ClaimOfRequest(stem: string)
    ensures ClaimName(stem + "." + "json") == if stem != "" then stem + "." + "working" else ".json" + "." + "working"
  {
    SuffixSwapped(stem, "json", Working);
    assert stem + Working == stem + "." + "working";
    assert ".json" + Working == ".json" + "." + "working";
    assert "." + "json" + Working == ".json" + Working;
  }

  /** A request comes back under its own name exactly when it has a name before the extension. */
  lemma ClaimRoundTrip(request: string)
    requires IsRequest(request)
    ensures RequestName(ClaimName(request)) == request <==> request != Json
    ensures IsClaim(ClaimName(request))
  {
    var stem := request[..|request| - 5];
    assert request == stem + "." + "json";
    ClaimOfRequest(stem);
    RequestOfClaim(if stem != "" then stem else ".json");
  }

  predicate Named(request: string) {
    IsRequest(request) && request != Json
  }

  lemma ClaimsAreDistinct(a: string, b: string)
    requires Named(a) && Named(b) && ClaimName(a) == ClaimName(b)
    ensures a == b
  {
    ClaimRoundTrip(a);
    ClaimRoundTrip(b);
  }

  // ----- one scan -----

  predicate Acceptable(name: string) {
    name != "" && EndsWith(name, Json) && '/' !in name && '\\' !in name
  }

  function Woken(wakes: seq<string>, isSpace: char -> bool): seq<string> {
    if wakes == [] then []
    else
      var front, name := Woken(wakes[..|wakes| - 1], isSpace), Strip(wakes[|wakes| - 1], isSpace);
      if Acceptable(name) && name !in front then front + [name] else front
  }

  /** A request name without a path to it. */
  ghost predicate PlainName(name: string) {
    name != "" && EndsWith(name, ".json") && forall c <- name :: c != '/' && c != '\\'
  }

  ghost predicate Wakes(wakes: seq<string>, isSpace: char -> bool, name: string) {
    exists wake :: wake in wakes && Strip(wake, isSpace) == name
  }

  /** A woken name is taken exactly when, stripped, it is a plain request name; each is taken once. */
  lemma {:induction false} WokenMembers(wakes: seq<string>, isSpace: char -> bool, name: string)
    ensures name in Woken(wakes, isSpace) <==> PlainName(name) && Wakes(wakes, isSpace, name)
    ensures Unique(Woken(wakes, isSpace))
  {
    if wakes != [] {
      var front, last := wakes[..|wakes| - 1], wakes[|wakes| - 1];
      WokenMembers(front, isSpace, name);
      assert Wakes(wakes, isSpace, name) <==> Wakes(front, isSpace, name) || Strip(last, isSpace) == name by {
        assert wakes == front + [last];
      }
      assert Acceptable(name) <==> PlainName(name);
    }
  }

  /** The requests of one scan: acceptable woken names as they came, then the rest of the listing in order. */
  method IterWarmRequestPaths(wakes: seq<string>, listing: seq<string>, isSpace: char -> bool) returns (paths: seq<string>)
    ensures Unique(paths)
    ensures Woken(wakes, isSpace) <= paths
    ensures forall p :: p in paths <==> p in Woken(wakes, isSpace) || p in listing
    ensures Sorted(listing, StringLess) ==> Sorted(paths[|Woken(wakes, isSpace)|..], StringLess)
  {
    paths := [];
    var seen: set<string> := {};
    for i := 0 to |wakes|
      invariant paths == Woken(wakes[..i], isSpace) && Unique(paths) && seen == set p | p in paths
    {
      assert wakes[..i + 1][..i] == wakes[..i];
      var name := Strip(wakes[i], isSpace);
      if Acceptable(name) && name !in seen {
        assert name !in paths;
        seen := seen + {name};
        paths := paths + [name];
      }
    }
    assert wakes[..|wakes|] == wakes;
    ghost var woken := paths;
    for i := 0 to |listing|
      invariant woken <= paths && Unique(paths) && seen == set p | p in paths
      invariant forall p :: p in paths <==> p in woken || p in listing[..i]
      invariant forall j :: |woken| <= j < |paths| ==> paths[j] in listing[..i]
      invariant Sorted(listing, StringLess) ==> Sorted(paths[|woken|..], StringLess)
    {
      assert listing[..i + 1] == listing[..i] + [listing[i]];
      if listing[i] !in seen {
        assert listing[i] !in paths;
        if Sorted(listing, StringLess) {
          SortedMore(listing, i, paths[|woken|..]);
          assert (paths + [listing[i]])[|woken|..] == paths[|woken|..] + [listing[i]];
        }
        seen := seen + {listing[i]};
        paths := paths + [listing[i]];
      }
    }
    assert listing[..|listing|] == listing;
  }

  lemma SortedMore(listing: seq<string>, i: nat, tail: seq<string>)
    requires Sorted(listing, StringLess) && Sorted(tail, StringLess) && i < |listing|
    requires forall j :: 0 <= j < |tail| ==> tail[j] in listing[..i]
    ensures Sorted(tail + [listing[i]], StringLess)
  {
    forall j | 0 <= j < |tail| ensures !StringLess(listing[i], tail[j]) {
      var k :| 0 <= k < i && listing[..i][k] == tail[j];
    }
  }

  // ----- steps on the directory -----

  function Recovered(files: set<string>, claim: string): set<string> {
    if RequestName(claim) in files then files - {claim} else files - {claim} + {RequestName(claim)}
  }

  function Claimed(files: set<string>, request: string): set<string> {
    files - {request} + {ClaimName(request)}
  }

  /** The request of a working file, and its working file again. */
  lemma RequestRoundTrip(claim: string)
    requires IsClaim(claim)
    ensures IsRequest(RequestName(claim)) && !IsClaim(RequestName(claim)) && RequestName(claim) != Json
    ensures claim != Working ==> ClaimName(RequestName(claim)) == claim
  {
    var stem := claim[..|claim| - 8];
    assert claim == stem + "." + "working";
    RequestOfClaim(stem);
    if stem != "" {
      ClaimOfRequest(stem);
    }
    RequestIsNoClaim(RequestName(claim));
  }

  ghost predicate Pending(files: set<string>, request: string) {
    request in files || ClaimName(request) in files
  }

  /** Recovering a working file loses no request and, unless the file is nobody's, makes none up. */
  lemma RecoveredPends(files: set<string>, claim: string, request: string)
    requires claim in files && IsClaim(claim) && Named(request)
    ensures Pending(files, request) ==> Pending(Recovered(files, claim), request)
    ensures claim != Working && Pending(Recovered(files, claim), request) ==> Pending(files, request)
  {
    RequestRoundTrip(claim);
    ClaimRoundTrip(request);
    RequestIsNoClaim(request);
    Renaming(files, claim, RequestName(claim), request, ClaimName(request));
  }

  lemma RequestIsNoClaim(request: string)
    requires IsRequest(request)
    ensures !IsClaim(request)
  {
    LastCharacter(request, Json);
    LastCharacter(request, Working);
  }

  lemma LastCharacter(name: string, suffix: string)
    ensures EndsWith(name, suffix) && suffix != "" ==> name != "" && name[|name| - 1] == suffix[|suffix| - 1]
  {
    assert EndsWith(name, suffix) && suffix != "" ==> name[|name| - |suffix|..][|suffix| - 1] == suffix[|suffix| - 1];
  }

  lemma Renaming(files: set<string>, claim: string, back: string, request: string, working: string)
    requires claim in files && request != claim && (working == claim ==> back == request) && back != working
    ensures var files' := if back in files then files - {claim} else files - {claim} + {back};
            && (request in files || working in files ==> request in files' || working in files')
            && ((back == request ==> working == claim) && (request in files' || working in files') ==> request in files || working in files)
  {
  }

  ghost predicate LosesNone(before: set<string>, after: set<string>) {
    forall request :: Named(request) && Pending(before, request) ==> Pending(after, request)
  }

  lemma RecoveryLosesNone(files: set<string>, claim: string)
    requires claim in files && IsClaim(claim)
    ensures LosesNone(files, Recovered(files, claim))
    ensures claim != Working ==> LosesNone(Recovered(files, claim), files)
    ensures forall name :: name in Recovered(files, claim) && IsClaim(name) <==> name in files && IsClaim(name) && name != claim
  {
    RequestRoundTrip(claim);
    forall request | Named(request)
      ensures Pending(files, request) ==> Pending(Recovered(files, claim), request)
      ensures claim != Working && Pending(Recovered(files, claim), request) ==> Pending(files, request)
    {
      RecoveredPends(files, claim, request);
    }
  }

  lemma WithoutClaimsAllIsPending(files: set<string>)
    requires forall name :: name in files ==> !IsClaim(name)
    ensures forall request :: Named(request) && Pending(files, request) ==> request in files
  {
    forall request | Named(request) ensures ClaimName(request) !in files {
      ClaimRoundTrip(request);
    }
  }

  class SpoolDirectory {
    var files: set<string>

    /** Gives every working file its request name back, or removes it where the request is there again. */
    method RecoverWarmRequests()
      modifies this
      ensures forall name :: name in files ==> !IsClaim(name)
      ensures forall request :: Named(request) && Pending(old(files), request) ==> request in files
      ensures Working !in old(files) ==> LosesNone(files, old(files))
    {
      var rest := set name | name in files && IsClaim(name);
      while rest != {}
        invariant forall name :: name in files && IsClaim(name) <==> name in rest
        invariant Working in files ==> Working in old(files)
        invariant LosesNone(old(files), files)
        invariant Working !in old(files) ==> LosesNone(files, old(files))
        decreases rest
      {
        var claim :| claim in rest;
        RecoveryLosesNone(files, claim);
        files := Recovered(files, claim);
        rest := rest - {claim};
      }
      WithoutClaimsAllIsPending(files);
    }

    /** Claims a request if it is there, lets it be processed and removes the working file, however processing ends. */
    method ProcessClaimedWarmRequest(request: string) returns (claimed: bool)
      requires IsRequest(request)
      modifies this
      ensures claimed <==> request in old(files)
      ensures files == if claimed then old(files) - {request, ClaimName(request)} else old(files)
    {
      if request !in files {
        return false;
      }
      ClaimRoundTrip(request);
      files := Claimed(files, request);
      files := files - {ClaimName(request)};
      return true;
    }
  }

  // ----- runs with crashes -----

  /** What the one daemon is at; a crash or a stop leaves it Down. */
  datatype Phase =
    | Down
    | Recovering(claims: seq<string>)
    | Ready
    | Processing(request: string)
    | Processed(request: string)

  /** `ended` are the requests whose processing has returned or raised since they were last submitted. */
  datatype Spool = Spool(files: set<string>, phase: Phase, submitted: set<string>, ended: set<string>)

  datatype Event =
    | Submit(request: string)
    | Start(claims: seq<string>)
    | Recover
    | Claim(request: string)
    | End
    | Release
    | Crash

  function After(s: Spool, e: Event): Spool {
    match e
    case Submit(request) =>
      if !Named(request) then s
      else s.(files := s.files + {request}, submitted := s.submitted + {request}, ended := s.ended - {request})
    case Start(claims) => if s.phase.Down? then s.(phase := Recovering(claims)) else s
    case Recover =>
      if !s.phase.Recovering? then s
      else if s.phase.claims == [] then s.(phase := Ready)
      else
        var claim := s.phase.claims[0];
        s.(files := if claim in s.files && IsClaim(claim) then Recovered(s.files, claim) else s.files,
           phase := Recovering(s.phase.claims[1..]))
    case Claim(request) =>
      if s.phase.Ready? && IsRequest(request) && request in s.files then s.(files := Claimed(s.files, request), phase := Processing(request)) else s
    case End => if s.phase.Processing? then s.(phase := Processed(s.phase.request), ended := s.ended + {s.phase.request}) else s
    case Release => if s.phase.Processed? then s.(files := s.files - {ClaimName(s.phase.request)}, phase := Ready) else s
    case Crash => s.(phase := Down)
  }

  function Run(s: Spool, events: seq<Event>): Spool {
    if events == [] then s else After(Run(s, events[..|events| - 1]), events[|events| - 1])
  }

  ghost predicate NoneLost(s: Spool) {
    && Json !in s.files
    && (forall request <- s.submitted :: Named(request) && (Pending(s.files, request) || request in s.ended))
    && (s.phase.Processing? ==> Named(s.phase.request))
    && (s.phase.Processed? ==> Named(s.phase.request) && (s.phase.request in s.files || s.phase.request in s.ended))
  }

  lemma ReleasedPends(files: set<string>, processed: string, request: string)
    requires Named(request) && Named(processed)
    ensures Pending(files, request) && request != processed ==> Pending(files - {ClaimName(processed)}, request)
    ensures request in files ==> request in files - {ClaimName(processed)}
  {
    ClaimRoundTrip(processed);
    assert request[|request| - 1] == 'n' && ClaimName(processed)[|ClaimName(processed)| - 1] == 'g';
    if ClaimName(request) == ClaimName(processed) {
      ClaimsAreDistinct(request, processed);
    }
  }

  lemma RecoveryMakesNoBareName(files: set<string>, claim: string)
    requires IsClaim(claim) && Json !in files
    ensures Json !in Recovered(files, claim)
  {
    RequestRoundTrip(claim);
  }

  lemma EventLosesNone(s: Spool, e: Event)
    requires NoneLost(s)
    ensures NoneLost(After(s, e))
  {
    var s' := After(s, e);
    forall request | request in s'.submitted ensures Named(request) && (Pending(s'.files, request) || request in s'.ended) {
      if e.Recover? && s.phase.Recovering? && s.phase.claims != [] && s.phase.claims[0] in s.files && IsClaim(s.phase.claims[0]) {
        RecoveredPends(s.files, s.phase.claims[0], request);
      } else if e.Release? && s.phase.Processed? {
        ReleasedPends(s.files, s.phase.request, request);
      }
    }
    if e.Recover? && s.phase.Recovering? && s.phase.claims != [] && s.phase.claims[0] in s.files && IsClaim(s.phase.claims[0]) {
      RecoveryMakesNoBareName(s.files, s.phase.claims[0]);
    } else if e.Claim? && s'.phase != s.phase {
      ClaimRoundTrip(e.request);
    }
  }

  /** With one daemon, whatever is submitted and wherever crashes fall, every submitted request is pending, claimed or has ended. */
  lemma {:induction false} RunLosesNone(s: Spool, events: seq<Event>)
    requires NoneLost(s)
    ensures NoneLost(Run(s, events))
  {
    if events != [] {
      RunLosesNone(s, events[..|events| - 1]);
      EventLosesNone(Run(s, events[..|events| - 1]), events[|events| - 1]);
    }
  }

  /** The i-th event ends the processing of the request. */
  ghost predicate EndsAt(s: Spool, events: seq<Event>, i: nat, request: string) {
    i < |events| && events[i].End? && Run(s, events[..i]).phase == Processing(request)
  }

  ghost predicate NotSubmittedAfter(events: seq<Event>, i: nat, request: string) {
    forall j :: i < j < |events| ==> events[j] != Submit(request)
  }

  /** Processing of the request ended in the run, and it has not been submitted since. */
  ghost predicate EndedSince(s: Spool, events: seq<Event>, request: string) {
    exists i: nat :: EndsAt(s, events, i, request) && NotSubmittedAfter(events, i, request)
  }

  lemma EndsByEnd(s: Spool, e: Event, request: string)
    requires Named(request)
    ensures request in After(s, e).ended <==>
              (e.End? && s.phase == Processing(request)) || (request in s.ended && e != Submit(request))
  {
  }

  lemma EndsAtFront(s: Spool, events: seq<Event>, i: nat, request: string)
    requires events != [] && i < |events| - 1
    ensures EndsAt(s, events[..|events| - 1], i, request) <==> EndsAt(s, events, i, request)
    ensures NotSubmittedAfter(events, i, request)
            <==> NotSubmittedAfter(events[..|events| - 1], i, request) && events[|events| - 1] != Submit(request)
  {
    var n := |events| - 1;
    assert events[..n][..i] == events[..i];
    forall j | i < j < n ensures events[..n][j] == events[j] {
    }
  }

  lemma EndedSinceOneMore(s: Spool, events: seq<Event>, request: string)
    requires events != []
    ensures var n := |events| - 1;
            EndedSince(s, events, request)
            <==> EndsAt(s, events, n, request) || (EndedSince(s, events[..n], request) && events[n] != Submit(request))
  {
    var n := |events| - 1;
    if EndedSince(s, events[..n], request) && events[n] != Submit(request) {
      var i: nat :| EndsAt(s, events[..n], i, request) && NotSubmittedAfter(events[..n], i, request);
      EndsAtFront(s, events, i, request);
    }
    if EndsAt(s, events, n, request) {
      assert NotSubmittedAfter(events, n, request);
    }
    if EndedSince(s, events, request) {
      var i: nat :| EndsAt(s, events, i, request) && NotSubmittedAfter(events, i, request);
      if i < n {
        EndsAtFront(s, events, i, request);
      }
    }
  }

  /** A request counts as ended exactly when its processing has ended since it was last submitted: a crash ends nothing. */
  lemma {:induction false} EndedMeansProcessed(s: Spool, events: seq<Event>, request: string)
    requires Named(request) && request !in s.ended
    ensures request in Run(s, events).ended <==> EndedSince(s, events, request)
  {
    if events != [] {
      var n := |events| - 1;
      EndedMeansProcessed(s, events[..n], request);
      EndsByEnd(Run(s, events[..n]), events[n], request);
      EndedSinceOneMore(s, events, request);
    }
  }

  /** Why a bare ".json" is no good name: a crash after its claim brings it back as another request. */
  lemma ABareNameIsLost()
    ensures Recovered(Claimed({Json}, Json), ClaimName(Json)) == {".json.json"}
  {
    SuffixSwapped("", "json", Working);
    assert Json == "" + "." + "json";
    assert ClaimName(Json) == ".json" + "." + "working";
    SuffixSwapped(".json", "working", Json);
    assert RequestName(ClaimName(Json)) == ".json.json";
    assert Claimed({Json}, Json) == {ClaimName(Json)};
    assert ".json.json" !in {ClaimName(Json)};
  }
}
