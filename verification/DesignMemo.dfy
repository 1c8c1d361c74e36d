/** The content-keyed memo of the design checker (`createGateDesignChecker`) under overlapping checks. */
module DesignMemo {
  import opened Text
  import opened Fingerprint

  // ----- What the Gate answers -----

  datatype Finding = Finding(code: string, message: string)

  datatype Findings = Findings(sliceErrors: seq<Finding>, treeErrors: seq<Finding>, warnings: seq<Finding>)

  datatype Report = Report(errors: seq<Finding>, warnings: seq<Finding>)

  const TYPE_CHECK_UNAVAILABLE_CODE := "TYPE_CHECK_UNAVAILABLE"

  function ToReport(f: Findings): Report {
    Report(f.sliceErrors + f.treeErrors, f.warnings)
  }

  predicate CompilerUnavailable(f: Findings) {
    exists k :: 0 <= k < |f.treeErrors| && f.treeErrors[k].code == TYPE_CHECK_UNAVAILABLE_CODE
  }

  /** The files of one walk, without the order they were listed in. */
  function Tree(files: Listing): set<File> {
    set f | f in files
  }

  /** What the `n`th run of the Gate finds in a tree. */
  type Gate = (set<File>, nat) -> Findings

  /** While the compiler is up the findings are a function of the bytes. */
  ghost predicate PureWhileUp(gate: Gate) {
    forall tree, n, m :: !CompilerUnavailable(gate(tree, n)) && !CompilerUnavailable(gate(tree, m)) ==>
      gate(tree, n) == gate(tree, m)
  }

  // ----- The memo -----

  datatype Hashing = Hashing(sha: Hash, prefix: Bytes)

  datatype Memo = Memo(key: Bytes, report: Report)

  /** The workspace path, a space and the fingerprint. */
  function Key(workspace: Bytes, fingerprint: Bytes): Bytes {
    workspace + [32] + fingerprint
  }

  function KeyOf(h: Hashing, workspace: Bytes, files: Listing): Option<Bytes>
    requires HexDigest(h.sha) && ShortPaths(files)
  {
    match FingerprintOf(h.sha, h.prefix, files)
    case None => None
    case Some(fingerprint) => Some(Key(workspace, fingerprint))
  }

  function Lookup(memo: Option<Memo>, key: Option<Bytes>): Option<Report> {
    if key.Some? && memo.Some? && memo.value.key == key.value then Some(memo.value.report) else None
  }

  function Store(memo: Option<Memo>, key: Option<Bytes>, f: Findings): Option<Memo> {
    if key.Some? && !CompilerUnavailable(f) then Some(Memo(key.value, ToReport(f))) else memo
  }

  /** The closure state of the checker; a check is in two parts, before and after it waits for the Gate. */
  class DesignChecker {
    var memo: Option<Memo>

    constructor ()
      ensures memo == None
    {
      memo := None;
    }

    /** Up to the Gate's run: the tree was read, and the memo answers if it is about those very bytes. */
    method Begin(h: Hashing, workspace: Bytes, files: Listing) returns (key: Option<Bytes>, hit: Option<Report>)
      requires HexDigest(h.sha) && ShortPaths(files)
      ensures key == KeyOf(h, workspace, files) && hit == Lookup(memo, key)
      ensures match FingerprintOf(h.sha, h.prefix, files)
              case None => key == None
              case Some(fingerprint) => key == Some(workspace + [32] + fingerprint)
      ensures hit == if key.Some? && memo.Some? && memo.value.key == key.value then Some(memo.value.report) else None
    {
      key := KeyOf(h, workspace, files);
      hit := None;
      if key.Some? && memo.Some? && memo.value.key == key.value {
        hit := Some(memo.value.report);
      }
    }

    /** Past the Gate's run: the report is kept unless it says only that the compiler was down. */
    method Finish(key: Option<Bytes>, found: Findings) returns (report: Report)
      modifies this
      ensures report.errors == found.sliceErrors + found.treeErrors && report.warnings == found.warnings
      ensures report == ToReport(found) && memo == Store(old(memo), key, found)
      ensures memo == if key.Some? && forall e :: e in found.treeErrors ==> e.code != "TYPE_CHECK_UNAVAILABLE"
                      then Some(Memo(key.value, report)) else old(memo)
    {
      report := Report(found.sliceErrors + found.treeErrors, found.warnings);
      var compilerWasUnavailable := false;
      for k := 0 to |found.treeErrors|
        invariant compilerWasUnavailable <==>
                  exists j :: 0 <= j < k && found.treeErrors[j].code == TYPE_CHECK_UNAVAILABLE_CODE
      {
        if found.treeErrors[k].code == TYPE_CHECK_UNAVAILABLE_CODE {
          compilerWasUnavailable := true;
        }
      }
      if key.Some? && !compilerWasUnavailable {
        memo := Some(Memo(key.value, report));
      }
    }
  }

  // ----- Keys -----

  /** The last space of a key is the one in front of its fingerprint. */
  lemma LastSpace(w: Bytes, f: Bytes, i: nat)
    requires (forall k :: 0 <= k < |f| ==> f[k] != 32) && i < |Key(w, f)|
    ensures Key(w, f)[|w|] == 32
    ensures i > |w| ==> Key(w, f)[i] != 32
  {
    if i > |w| {
      assert Key(w, f)[i] == f[i - |w| - 1];
    }
  }

  /** A key determines its workspace and its fingerprint: a digest holds no space. */
  lemma KeyIsInjective(w1: Bytes, f1: Bytes, w2: Bytes, f2: Bytes)
    requires forall k :: 0 <= k < |f1| ==> f1[k] != 32
    requires forall k :: 0 <= k < |f2| ==> f2[k] != 32
    requires Key(w1, f1) == Key(w2, f2)
    ensures w1 == w2 && f1 == f2
  {
    var key := Key(w1, f1);
    LastSpace(w1, f1, |w2|);
    LastSpace(w2, f2, |w1|);
    assert key[..|w1|] == w1 && key[..|w2|] == w2;
    assert key[|w1| + 1..] == f1 && key[|w2| + 1..] == f2;
  }

  /** Everything hashed for a walk is among `hashed`. */
  ghost predicate HashedIn(h: Hashing, hashed: set<Bytes>, files: Listing) {
    HexDigest(h.sha) && ShortPaths(files) && HashedFor(h.sha, h.prefix, files) <= hashed
  }

  /** Equal keys are keys of the same tree. */
  lemma SameKeySameTree(h: Hashing, hashed: set<Bytes>, w1: Bytes, a: Listing, w2: Bytes, b: Listing)
    requires NoCollisions(h.sha, hashed) && HashedIn(h, hashed, a) && HashedIn(h, hashed, b)
    requires KeyOf(h, w1, a).Some? && KeyOf(h, w1, a) == KeyOf(h, w2, b)
    ensures w1 == w2 && Tree(a) == Tree(b)
  {
    var f1 := FingerprintOf(h.sha, h.prefix, a).value;
    var f2 := FingerprintOf(h.sha, h.prefix, b).value;
    KeyIsInjective(w1, f1, w2, f2);
    FingerprintIdentifiesTree(h.sha, h.prefix, a, b);
  }

  // ----- Overlapping checks and edits -----

  datatype Flight = Flight(files: Listing, key: Option<Bytes>)

  datatype Answer = Unreadable | Answered(files: Listing, report: Report, hit: bool)

  datatype State = State(
    disk: map<Bytes, Listing>,
    memo: Option<Memo>,
    flights: map<nat, Flight>,
    answers: map<nat, Answer>,
    runs: nat)

  /** A check begins with a walk, in some order, of what is on disk then, and finishes at any later time. */
  datatype Step =
    | Edit(workspace: Bytes, files: Option<Listing>)
    | BeginCheck(call: nat, workspace: Bytes, walk: Listing)
    | FinishCheck(call: nat)

  ghost function Next(h: Hashing, gate: Gate, s: State, step: Step): State
    requires HexDigest(h.sha)
  {
    match step
    case Edit(workspace, files) =>
      s.(disk := if files.Some? then s.disk[workspace := files.value] else s.disk - {workspace})
    case BeginCheck(call, workspace, walk) =>
      if call in s.flights || call in s.answers then s
      else if workspace !in s.disk then s.(answers := s.answers[call := Unreadable])
      else if !SameTree(walk, s.disk[workspace]) || !ShortPaths(walk) then s
      else
        var key := KeyOf(h, workspace, walk);
        var hit := Lookup(s.memo, key);
        if hit.Some? then s.(answers := s.answers[call := Answered(walk, hit.value, true)])
        else s.(flights := s.flights[call := Flight(walk, key)])
    case FinishCheck(call) =>
      if call !in s.flights then s
      else
        var flight := s.flights[call];
        var found := gate(Tree(flight.files), s.runs);
        s.(memo := Store(s.memo, flight.key, found),
           answers := s.answers[call := Answered(flight.files, ToReport(found), false)],
           flights := s.flights - {call},
           runs := s.runs + 1)
  }

  ghost function Run(h: Hashing, gate: Gate, s: State, steps: seq<Step>): State
    requires HexDigest(h.sha)
    decreases |steps|
  {
    if steps == [] then s else Run(h, gate, Next(h, gate, s, steps[0]), steps[1..])
  }

  /** `report` is what a run over `tree` gives while the compiler is up. */
  ghost predicate Fresh(gate: Gate, tree: set<File>, report: Report) {
    exists n :: !CompilerUnavailable(gate(tree, n)) && report == ToReport(gate(tree, n))
  }

  ghost predicate HasKey(h: Hashing, hashed: set<Bytes>, workspace: Bytes, files: Listing, key: Option<Bytes>) {
    HashedIn(h, hashed, files) && KeyOf(h, workspace, files) == key
  }

  ghost predicate MemoTrusted(h: Hashing, hashed: set<Bytes>, gate: Gate, m: Memo) {
    exists workspace, files ::
      HasKey(h, hashed, workspace, files, Some(m.key)) && Fresh(gate, Tree(files), m.report)
  }

  ghost predicate FlightTrusted(h: Hashing, hashed: set<Bytes>, f: Flight) {
    exists workspace :: HasKey(h, hashed, workspace, f.files, f.key)
  }

  /** A hit is fresh; any other answer is the report of a run just made over the bytes just read. */
  ghost predicate AnswerTrusted(gate: Gate, a: Answer) {
    a.Answered? ==>
      if a.hit then Fresh(gate, Tree(a.files), a.report)
      else exists n :: a.report == ToReport(gate(Tree(a.files), n))
  }

  ghost predicate Trusted(h: Hashing, hashed: set<Bytes>, gate: Gate, s: State) {
    && (s.memo.Some? ==> MemoTrusted(h, hashed, gate, s.memo.value))
    && (forall call :: call in s.flights ==> FlightTrusted(h, hashed, s.flights[call]))
    && (forall call :: call in s.answers ==> AnswerTrusted(gate, s.answers[call]))
  }

  lemma BeginKeepsTrust(h: Hashing, hashed: set<Bytes>, gate: Gate, s: State,
                        call: nat, workspace: Bytes, walk: Listing)
    requires HexDigest(h.sha) && NoCollisions(h.sha, hashed) && Trusted(h, hashed, gate, s)
    requires ShortPaths(walk) ==> HashedIn(h, hashed, walk)
    ensures Trusted(h, hashed, gate, Next(h, gate, s, BeginCheck(call, workspace, walk)))
  {
    if workspace in s.disk && ShortPaths(walk) {
      var key := KeyOf(h, workspace, walk);
      assert HasKey(h, hashed, workspace, walk, key);
      assert FlightTrusted(h, hashed, Flight(walk, key));
      if Lookup(s.memo, key).Some? {
        var m := s.memo.value;
        var w, files :| HasKey(h, hashed, w, files, Some(m.key)) && Fresh(gate, Tree(files), m.report);
        SameKeySameTree(h, hashed, w, files, workspace, walk);
        assert AnswerTrusted(gate, Answered(walk, m.report, true));
      }
    }
  }

  lemma FinishKeepsTrust(h: Hashing, hashed: set<Bytes>, gate: Gate, s: State, call: nat)
    requires HexDigest(h.sha) && Trusted(h, hashed, gate, s)
    ensures Trusted(h, hashed, gate, Next(h, gate, s, FinishCheck(call)))
  {
    if call in s.flights {
      var flight := s.flights[call];
      var found := gate(Tree(flight.files), s.runs);
      assert FlightTrusted(h, hashed, flight);
      var w :| HasKey(h, hashed, w, flight.files, flight.key);
      if flight.key.Some? && !CompilerUnavailable(found) {
        assert Fresh(gate, Tree(flight.files), ToReport(found));
        assert MemoTrusted(h, hashed, gate, Memo(flight.key.value, ToReport(found)));
      }
      assert AnswerTrusted(gate, Answered(flight.files, ToReport(found), false));
    }
  }

  /** Everything that the checks of a run hash. */
  ghost function HashedBy(h: Hashing, steps: seq<Step>): set<Bytes>
    requires HexDigest(h.sha)
  {
    if steps == [] then {}
    else
      HashedBy(h, steps[1..]) +
      if steps[0].BeginCheck? && ShortPaths(steps[0].walk) then HashedFor(h.sha, h.prefix, steps[0].walk) else {}
  }

  /** Every answer given in any interleaving of overlapping checks and edits can be trusted. */
  lemma {:induction false} EveryRunIsTrusted(h: Hashing, hashed: set<Bytes>, gate: Gate, s: State, steps: seq<Step>)
    requires HexDigest(h.sha) && NoCollisions(h.sha, hashed) && HashedBy(h, steps) <= hashed
    requires Trusted(h, hashed, gate, s)
    ensures Trusted(h, hashed, gate, Run(h, gate, s, steps))
    decreases |steps|
  {
    if steps != [] {
      match steps[0] {
        case Edit(_, _) =>
        case BeginCheck(call, workspace, walk) => BeginKeepsTrust(h, hashed, gate, s, call, workspace, walk);
        case FinishCheck(call) => FinishKeepsTrust(h, hashed, gate, s, call);
      }
      EveryRunIsTrusted(h, hashed, gate, Next(h, gate, s, steps[0]), steps[1..]);
    }
  }

  /** A checker that has answered nothing yet. */
  function Started(disk: map<Bytes, Listing>): State {
    State(disk, None, map[], map[], 0)
  }

  /**
   From a fresh checker, as long as no two inputs hashed in the run collide, a hit returns what running the
   Gate on the bytes just read would return, and never the report of a compiler that was down.
   */
  lemma HitsAreFresh(h: Hashing, gate: Gate, disk: map<Bytes, Listing>, steps: seq<Step>, call: nat, n: nat)
    requires HexDigest(h.sha) && NoCollisions(h.sha, HashedBy(h, steps)) && PureWhileUp(gate)
    requires var s := Run(h, gate, Started(disk), steps);
             call in s.answers && s.answers[call].Answered? && s.answers[call].hit
    ensures var a := Run(h, gate, Started(disk), steps).answers[call];
            && Fresh(gate, Tree(a.files), a.report)
            && (!CompilerUnavailable(gate(Tree(a.files), n)) ==> a.report == ToReport(gate(Tree(a.files), n)))
  {
    EveryRunIsTrusted(h, HashedBy(h, steps), gate, Started(disk), steps);
  }

  // ----- What the memo saves -----

  lemma {:induction false} RunConcat(h: Hashing, gate: Gate, s: State, a: seq<Step>, b: seq<Step>)
    requires HexDigest(h.sha)
    ensures Run(h, gate, s, a + b) == Run(h, gate, Run(h, gate, s, a), b)
    decreases |a|
  {
    if a == [] {
      assert a + b == b;
    } else {
      assert (a + b)[1..] == a[1..] + b;
      RunConcat(h, gate, Next(h, gate, s, a[0]), a[1..], b);
    }
  }

  lemma RunOne(h: Hashing, gate: Gate, s: State, step: Step)
    requires HexDigest(h.sha)
    ensures Run(h, gate, s, [step]) == Next(h, gate, s, step)
  {
    assert [step][1..] == [];
  }

  /** Steps that edit nothing in the workspace, end no check and do not begin call `call`. */
  ghost predicate Quiet(steps: seq<Step>, workspace: Bytes, call: nat) {
    forall step :: step in steps ==>
      match step
      case Edit(w, _) => w != workspace
      case BeginCheck(c, _, _) => c != call
      case FinishCheck(_) => false
  }

  /** The workspace holds the tree of `walk`, and call `call` has not begun. */
  ghost predicate Ready(s: State, workspace: Bytes, walk: Listing, call: nat) {
    workspace in s.disk && SameTree(walk, s.disk[workspace]) && call !in s.flights && call !in s.answers
  }

  lemma {:induction false} QuietKeepsMemo(
    h: Hashing, gate: Gate, s: State, steps: seq<Step>, workspace: Bytes, walk: Listing, call: nat)
    requires HexDigest(h.sha) && Quiet(steps, workspace, call) && Ready(s, workspace, walk, call)
    ensures var end := Run(h, gate, s, steps); end.memo == s.memo && Ready(end, workspace, walk, call)
    decreases |steps|
  {
    if steps != [] {
      assert steps[0] in steps && forall step :: step in steps[1..] ==> step in steps;
      QuietKeepsMemo(h, gate, Next(h, gate, s, steps[0]), steps[1..], workspace, walk, call);
    }
  }

  /** A walk of unique paths, as a file system's is, that a key is computed for. */
  ghost predicate Readable(h: Hashing, files: Listing) {
    HexDigest(h.sha) && ShortPaths(files) && FingerprintOf(h.sha, h.prefix, files).Some?
  }

  /** What a check that missed leaves behind: its report, in the memo and as its answer. */
  lemma CheckStores(h: Hashing, gate: Gate, s: State, workspace: Bytes, walk: Listing, call: nat)
    requires Readable(h, walk) && Ready(s, workspace, walk, call)
    requires Lookup(s.memo, KeyOf(h, workspace, walk)).None? && !CompilerUnavailable(gate(Tree(walk), s.runs))
    ensures var report := ToReport(gate(Tree(walk), s.runs));
            Run(h, gate, s, [BeginCheck(call, workspace, walk), FinishCheck(call)]) ==
            s.(memo := Some(Memo(KeyOf(h, workspace, walk).value, report)), runs := s.runs + 1,
               answers := s.answers[call := Answered(walk, report, false)])
  {
    var begin, finish := BeginCheck(call, workspace, walk), FinishCheck(call);
    var begun := Next(h, gate, s, begin);
    assert [begin, finish][1..] == [finish];
    RunOne(h, gate, begun, finish);
    assert begun.flights - {call} == s.flights;
  }

  /**
   Checking any tree again, however the directory lists it this time, answers from the memo what the first
   check found, if the compiler was up, when nothing was edited in the workspace and no check ended between.
   */
  lemma SecondCheckHits(h: Hashing, gate: Gate, s: State, workspace: Bytes, a: Listing, b: Listing,
                        first: nat, second: nat, between: seq<Step>)
    requires Readable(h, a) && Readable(h, b) && first != second
    requires Ready(s, workspace, a, first) && Ready(s, workspace, b, second)
    requires Lookup(s.memo, KeyOf(h, workspace, a)).None? && !CompilerUnavailable(gate(Tree(a), s.runs))
    requires Quiet(between, workspace, second)
    ensures var steps := [BeginCheck(first, workspace, a), FinishCheck(first)] + between
                         + [BeginCheck(second, workspace, b)];
            var end := Run(h, gate, s, steps);
            second in end.answers && end.answers[second] == Answered(b, ToReport(gate(Tree(a), s.runs)), true)
  {
    var check, again := [BeginCheck(first, workspace, a), FinishCheck(first)], BeginCheck(second, workspace, b);
    var stored := Run(h, gate, s, check);
    var later := Run(h, gate, stored, between);
    CheckStores(h, gate, s, workspace, a, first);
    QuietKeepsMemo(h, gate, stored, between, workspace, b, second);
    RunConcat(h, gate, s, check, between);
    RunConcat(h, gate, s, check + between, [again]);
    RunOne(h, gate, later, again);
    assert SameTree(a, b);
    SameTreeSameFingerprint(h.sha, h.prefix, a, b);
  }

  /** In a fresh checker the empty tree, checked twice, is such a run for every hash, and nothing collides in it. */
  lemma EmptyTreeCheckedTwice(h: Hashing, gate: Gate, workspace: Bytes)
    requires HexDigest(h.sha) && !CompilerUnavailable(gate({}, 0))
    ensures var steps := [BeginCheck(0, workspace, []), FinishCheck(0), BeginCheck(1, workspace, [])];
            var end := Run(h, gate, Started(map[workspace := []]), steps);
            && NoCollisions(h.sha, HashedBy(h, steps))
            && 1 in end.answers && end.answers[1] == Answered([], ToReport(gate({}, 0)), true)
  {
    var check, again := [BeginCheck(0, workspace, []), FinishCheck(0)], [BeginCheck(1, workspace, [])];
    var steps := [BeginCheck(0, workspace, []), FinishCheck(0), BeginCheck(1, workspace, [])];
    assert Tree([]) == {} && steps == check + [] + again;
    SecondCheckHits(h, gate, Started(map[workspace := []]), workspace, [], [], 0, 1, []);
    assert steps[1..][1..] == again && again[1..] == [];
    assert HashedBy(h, steps[1..]) == HashedBy(h, again) == HashedFor(h.sha, h.prefix, []);
    assert HashedBy(h, steps) == HashedFor(h.sha, h.prefix, []);
  }
}
