/** Face matching and the authentication scan: which stored name a probe encoding is
    recognized as, which name a frame ends up with, and how the scan of at most 30 frames
    stops. `face_recognition.compare_faces` at tolerance 0.5 is the comparator `matches`,
    applied as `matches(stored, probe)`; the model assumes nothing about it. */
module Matching {
  import opened Wrappers
  import opened Camera
  import opened FaceStore

  type Comparator = (Encoding, Encoding) -> bool

  /** `for _ in range(30)`: the most frames one authentication reads. */
  const MaxAuthFrames: nat := 30

  /** The label of a face nothing matches. */
  const UnknownName: string := "Unknown"

  /** `matches.index(True)` over `compare_faces(list(database.values()), probe)`. */
  function FirstMatchIndex(store: Store, probe: Encoding, matches: Comparator): (index: Option<nat>)
    ensures index.None? <==> forall i :: 0 <= i < |store| ==> !matches(store[i].encoding, probe)
    ensures index.Some? ==> index.value < |store| && matches(store[index.value].encoding, probe)
    ensures index.Some? ==> forall i :: 0 <= i < index.value ==> !matches(store[i].encoding, probe)
  {
    if store == [] then None
    else if matches(store[0].encoding, probe) then Some(0)
    else
      match FirstMatchIndex(store[1..], probe, matches)
      case None => None
      case Some(i) => Some(i + 1)
  }

  /** Entry `i` is the first stored entry whose encoding matches the probe. */
  predicate IsFirstMatch(store: Store, probe: Encoding, matches: Comparator, i: nat) {
    i < |store| && matches(store[i].encoding, probe)
    && forall j :: 0 <= j < i ==> !matches(store[j].encoding, probe)
  }

  /** The name a face is labelled with: the first stored name, in insertion order, whose
      encoding matches; None when nothing matches (the source's "Unknown"). */
  function Recognize(store: Store, probe: Encoding, matches: Comparator): (name: Option<string>)
    ensures name.None? <==> forall i :: 0 <= i < |store| ==> !matches(store[i].encoding, probe)
    ensures name.Some? ==> exists i: nat :: IsFirstMatch(store, probe, matches, i) && store[i].name == name.value
  {
    match FirstMatchIndex(store, probe, matches)
    case None => None
    case Some(i) => Some(store[i].name)
  }

  /** A recognized name is one of the stored names. */
  lemma RecognizedLabel(store: Store, probe: Encoding, matches: Comparator)
    ensures Recognize(store, probe, matches).Some? ==> Recognize(store, probe, matches).value in Labels(store)
  {
    var name := Recognize(store, probe, matches);
    if name.Some? {
      var i: nat :| IsFirstMatch(store, probe, matches, i) && store[i].name == name.value;
      assert Labels(store)[i] == name.value;
    }
  }

  /** Tie-break: when two stored encodings both match, the earlier-inserted name wins. */
  lemma FirstInsertedWins(store: Store, probe: Encoding, matches: Comparator, i: nat, j: nat)
    requires UniqueLabels(store)
    requires i < j < |store|
    requires matches(store[i].encoding, probe) && matches(store[j].encoding, probe)
    ensures Recognize(store, probe, matches) != Some(store[j].name)
  {
    var k := FirstMatchIndex(store, probe, matches).value;
    assert k <= i;
  }

  /** Whether some stored encoding matches the face. */
  predicate IsKnown(store: Store, face: Face, matches: Comparator) {
    Recognize(store, face.encoding, matches).Some?
  }

  /** `recognized_name` after the faces of one frame: every face is compared and each
      recognized face overwrites it, so the last recognized face decides; None when no face
      is recognized. */
  function LastRecognized(store: Store, faces: seq<Face>, matches: Comparator): Option<string> {
    if faces == [] then None
    else
      var name := Recognize(store, faces[|faces| - 1].encoding, matches);
      if name.Some? then name else LastRecognized(store, faces[..|faces| - 1], matches)
  }

  /** Face `k` is the last recognized face of the frame. */
  predicate IsLastKnown(store: Store, faces: seq<Face>, matches: Comparator, k: nat) {
    k < |faces| && IsKnown(store, faces[k], matches)
    && forall j :: k < j < |faces| ==> !IsKnown(store, faces[j], matches)
  }

  /** The frame's name is None exactly when none of its faces is recognized. */
  lemma {:induction false} LastRecognizedNone(store: Store, faces: seq<Face>, matches: Comparator)
    ensures LastRecognized(store, faces, matches).None?
        <==> forall k :: 0 <= k < |faces| ==> !IsKnown(store, faces[k], matches)
  {
    if faces != [] {
      var earlier := faces[..|faces| - 1];
      LastRecognizedNone(store, earlier, matches);
      assert forall k :: 0 <= k < |earlier| ==> earlier[k] == faces[k];
    }
  }

  /** A frame with a name got it from its last recognized face. */
  lemma {:induction false} LastRecognizedIsLastKnown(store: Store, faces: seq<Face>, matches: Comparator)
    ensures LastRecognized(store, faces, matches).Some? ==>
      exists k: nat :: IsLastKnown(store, faces, matches, k)
        && LastRecognized(store, faces, matches) == Recognize(store, faces[k].encoding, matches)
  {
    if faces != [] {
      var earlier, last := faces[..|faces| - 1], faces[|faces| - 1];
      if IsKnown(store, last, matches) {
        assert IsLastKnown(store, faces, matches, |faces| - 1);
      } else if LastRecognized(store, earlier, matches).Some? {
        LastRecognizedIsLastKnown(store, earlier, matches);
        var k: nat :| IsLastKnown(store, earlier, matches, k)
          && LastRecognized(store, earlier, matches) == Recognize(store, earlier[k].encoding, matches);
        forall j | k < j < |faces|
          ensures !IsKnown(store, faces[j], matches)
        {
          if j < |earlier| {
            assert faces[j] == earlier[j];
          } else {
            assert faces[j] == last;
          }
        }
        assert IsLastKnown(store, faces, matches, k);
      }
    }
  }

  /** The label a face is drawn with and tested against: the recognized name, or
      "Unknown" when nothing matches. */
  function Shown(store: Store, face: Face, matches: Comparator): string {
    match Recognize(store, face.encoding, matches)
    case None => UnknownName
    case Some(name) => name
  }

  /** A face whose label is "Unknown": the source raises an intruder entry and alert for it. */
  predicate IsIntruder(store: Store, face: Face, matches: Comparator) {
    Shown(store, face, matches) == UnknownName
  }

  /** An unmatched face is an intruder, and while no stored name is "Unknown" only an
      unmatched face is. */
  lemma IntruderIffUnmatched(store: Store, face: Face, matches: Comparator)
    ensures !IsKnown(store, face, matches) ==> IsIntruder(store, face, matches)
    ensures UnknownName !in Labels(store) ==> (IsIntruder(store, face, matches) <==> !IsKnown(store, face, matches))
  {
    RecognizedLabel(store, face.encoding, matches);
  }

  /** The intruder faces of one frame. */
  function IntruderCount(store: Store, faces: seq<Face>, matches: Comparator): (count: nat)
    ensures count <= |faces|
  {
    if faces == [] then 0
    else
      var rest := IntruderCount(store, faces[..|faces| - 1], matches);
      if IsIntruder(store, faces[|faces| - 1], matches) then rest + 1 else rest
  }

  /** One more face of a frame: what the face loop's body does to `recognized_name` and to
      the intruder count. */
  lemma FaceStep(store: Store, faces: seq<Face>, j: nat, matches: Comparator)
    requires j < |faces|
    ensures LastRecognized(store, faces[..j + 1], matches)
         == if IsKnown(store, faces[j], matches) then Recognize(store, faces[j].encoding, matches)
            else LastRecognized(store, faces[..j], matches)
    ensures IntruderCount(store, faces[..j + 1], matches)
         == IntruderCount(store, faces[..j], matches) + if IsIntruder(store, faces[j], matches) then 1 else 0
  {
    assert faces[..j + 1][..j] == faces[..j];
  }

  /** What the authentication loop takes from one read: a failure, or the name the frame's
      faces end up with and how many of them are intruders. */
  datatype FrameResult = FailedRead | Seen(recognized: Option<string>, intruders: nat)

  function Observe(store: Store, frame: Frame, matches: Comparator): FrameResult {
    match frame
    case ReadFailed => FailedRead
    case Captured(faces) => Seen(LastRecognized(store, faces, matches), IntruderCount(store, faces, matches))
  }

  /** A frame that ends the scan: a failed read, or a frame with a recognized face. */
  predicate EndsScan(result: FrameResult) {
    result.FailedRead? || result.recognized.Some?
  }

  /** Intruder faces among the first `n` results; failed reads have none. */
  function IntrudersBefore(results: seq<FrameResult>, n: nat): nat
    requires n <= |results|
  {
    if n == 0 then 0
    else
      IntrudersBefore(results, n - 1)
        + match results[n - 1]
          case FailedRead => 0
          case Seen(_, intruders) => intruders
  }

  /** What one run of the authentication loop observed: how many reads it made, the name it
      recognized, whether it stopped on a failed read, and how many intruder faces it saw. */
  datatype AuthScan = AuthScan(framesRead: nat, recognized: Option<string>, readFailed: bool, intruders: nat)

  /** The loop from read `k` on, over the results of the reads it may make, having seen
      `intruders` intruder faces so far. */
  function ScanFrom(results: seq<FrameResult>, k: nat, intruders: nat): AuthScan
    requires k <= |results|
    decreases |results| - k
  {
    if k == |results| then AuthScan(k, None, false, intruders)
    else match results[k]
      case FailedRead => AuthScan(k + 1, None, true, intruders)
      case Seen(name, count) =>
        if name.Some? then AuthScan(k + 1, name, false, intruders + count)
        else ScanFrom(results, k + 1, intruders + count)
  }

  /** The loop from read `k` on stops right after the first result that ends it, or after
      the last read, and adds up the intruders of every result it took. */
  lemma {:induction false} ScanFromStops(results: seq<FrameResult>, k: nat, intruders: nat)
    requires k < |results|
    decreases |results| - k
    ensures var scan := ScanFrom(results, k, intruders);
      && k < scan.framesRead <= |results|
      && (forall i :: k <= i < scan.framesRead - 1 ==> !EndsScan(results[i]))
      && (scan.framesRead < |results| ==> EndsScan(results[scan.framesRead - 1]))
      && scan.readFailed == results[scan.framesRead - 1].FailedRead?
      && scan.recognized == (if scan.readFailed then None else results[scan.framesRead - 1].recognized)
      && scan.intruders + IntrudersBefore(results, k) == intruders + IntrudersBefore(results, scan.framesRead)
  {
    match results[k]
    case FailedRead =>
    case Seen(name, count) =>
      if name.None? && k + 1 < |results| {
        ScanFromStops(results, k + 1, intruders + count);
      }
  }

  /** The results of the first `n` reads of the camera. */
  function ObservationsUpTo(store: Store, frames: seq<Frame>, matches: Comparator, n: nat): (results: seq<FrameResult>)
    ensures |results| == n
  {
    if n == 0 then [] else ObservationsUpTo(store, frames, matches, n - 1) + [Observe(store, Read(frames, n - 1), matches)]
  }

  /** The results of the first 30 reads of the camera. */
  function Observations(store: Store, frames: seq<Frame>, matches: Comparator): (results: seq<FrameResult>)
    ensures |results| == MaxAuthFrames
  {
    ObservationsUpTo(store, frames, matches, MaxAuthFrames)
  }

  /** Result `k` is what read `k` showed. */
  lemma ObservedAt(store: Store, frames: seq<Frame>, matches: Comparator, k: nat)
    requires k < MaxAuthFrames
    ensures Observations(store, frames, matches)[k] == Observe(store, Read(frames, k), matches)
  {
    ObservedUpTo(store, frames, matches, MaxAuthFrames, k);
  }

  /** Result `k` of the first `n` reads is what read `k` showed. */
  lemma {:induction false} ObservedUpTo(store: Store, frames: seq<Frame>, matches: Comparator, n: nat, k: nat)
    requires k < n
    ensures ObservationsUpTo(store, frames, matches, n)[k] == Observe(store, Read(frames, k), matches)
  {
    if k < n - 1 {
      ObservedUpTo(store, frames, matches, n - 1, k);
    }
  }

  /** What the face loop found in read `k` is result `k`. */
  lemma ObservedFrame(store: Store, frames: seq<Frame>, matches: Comparator, k: nat, name: Option<string>, count: nat)
    requires k < MaxAuthFrames && Read(frames, k).Captured?
    requires name == LastRecognized(store, Read(frames, k).faces, matches)
    requires count == IntruderCount(store, Read(frames, k).faces, matches)
    ensures Observations(store, frames, matches)[k] == Seen(name, count)
  {
    ObservedAt(store, frames, matches, k);
  }

  /** One authentication attempt over an opened camera: the loop over the results of its
      first 30 reads. */
  function ScanAll(store: Store, frames: seq<Frame>, matches: Comparator): (scan: AuthScan)
    ensures 1 <= scan.framesRead <= MaxAuthFrames
  {
    ScanFromStops(Observations(store, frames, matches), 0, 0);
    ScanFrom(Observations(store, frames, matches), 0, 0)
  }

  /** An authentication attempt reads at most 30 frames and stops right after the first
      frame that failed or held a recognized face; the recognized name is that of the last
      recognized face of that frame; every face of every frame read that is labelled
      "Unknown" is counted as an intruder. */
  lemma ScanAllStops(store: Store, frames: seq<Frame>, matches: Comparator)
    ensures var scan := ScanAll(store, frames, matches);
      && 1 <= scan.framesRead <= MaxAuthFrames
      && (forall i :: 0 <= i < scan.framesRead - 1 ==> !EndsScan(Observe(store, Read(frames, i), matches)))
      && (scan.framesRead < MaxAuthFrames ==> EndsScan(Observe(store, Read(frames, scan.framesRead - 1), matches)))
      && scan.readFailed == Read(frames, scan.framesRead - 1).ReadFailed?
      && scan.recognized == (if scan.readFailed then None
           else LastRecognized(store, Read(frames, scan.framesRead - 1).faces, matches))
      && scan.intruders == IntrudersBefore(Observations(store, frames, matches), scan.framesRead)
  {
    var results := Observations(store, frames, matches);
    var scan := ScanAll(store, frames, matches);
    ScanFromStops(results, 0, 0);
    ObservedAt(store, frames, matches, scan.framesRead - 1);
    forall i | 0 <= i < scan.framesRead - 1
      ensures results[i] == Observe(store, Read(frames, i), matches)
    {
      ObservedAt(store, frames, matches, i);
    }
  }

  /** A recognized name is a stored name that matched a face of the last frame read. */
  lemma RecognizedIsStored(store: Store, frames: seq<Frame>, matches: Comparator)
    ensures var scan := ScanAll(store, frames, matches);
      scan.recognized.Some? ==>
        !scan.readFailed && scan.recognized.value in Labels(store)
  {
    var scan := ScanAll(store, frames, matches);
    ScanAllStops(store, frames, matches);
    if scan.recognized.Some? {
      var faces := Read(frames, scan.framesRead - 1).faces;
      LastRecognizedIsLastKnown(store, faces, matches);
      var k: nat :| IsLastKnown(store, faces, matches, k)
        && scan.recognized == Recognize(store, faces[k].encoding, matches);
      RecognizedLabel(store, faces[k].encoding, matches);
    }
  }

  /** The intruder test compares labels with the string "Unknown", so a user enrolled
      under that name is granted access and, in the same frame, reported as an intruder. */
  lemma EnrolledUnknownIsAlsoIntruder(e: Encoding)
    ensures var store := [Identity(UnknownName, e)];
      var matches: Comparator := (stored: Encoding, probe: Encoding) => stored == probe;
      ScanAll(store, [Captured([Face(0.0, e)])], matches) == AuthScan(1, Some(UnknownName), false, 1)
  {
    var store := [Identity(UnknownName, e)];
    var matches: Comparator := (stored: Encoding, probe: Encoding) => stored == probe;
    var frames := [Captured([Face(0.0, e)])];
    var faces := [Face(0.0, e)];
    assert Recognize(store, e, matches) == Some(UnknownName);
    assert faces[..0] == [];
    assert LastRecognized(store, faces, matches) == Some(UnknownName);
    assert IntruderCount(store, faces, matches) == 1;
    ObservedAt(store, frames, matches, 0);
  }

  /** The face loop of one authentication frame: every face is compared, the last
      recognized face decides `recognized_name`, and each face labelled "Unknown" is an
      intruder. */
  method ExamineFaces(store: Store, faces: seq<Face>, matches: Comparator)
    returns (recognizedName: Option<string>, intruders: nat)
    ensures recognizedName == LastRecognized(store, faces, matches)
    ensures intruders == IntruderCount(store, faces, matches)
  {
    recognizedName := None;
    intruders := 0;
    var j := 0;
    while j < |faces|
      invariant j <= |faces|
      invariant recognizedName == LastRecognized(store, faces[..j], matches)
      invariant intruders == IntruderCount(store, faces[..j], matches)
    {
      FaceStep(store, faces, j, matches);
      var name := UnknownName;
      var found := Recognize(store, faces[j].encoding, matches);
      if found.Some? {
        name := found.value;
        recognizedName := found;
      }
      if name == UnknownName {
        intruders := intruders + 1;
      }
      j := j + 1;
    }
    assert faces[..j] == faces;
  }

  /** The authentication loop of `authenticate_face`, without its side effects: the intruder
      entries, the read-failure handling and the outcome entries are applied by the caller
      from the returned scan. */
  method AuthenticationScan(store: Store, frames: seq<Frame>, matches: Comparator) returns (scan: AuthScan)
    ensures scan == ScanAll(store, frames, matches)
  {
    ghost var results := Observations(store, frames, matches);
    ghost var goal := ScanFrom(results, 0, 0);
    var recognizedName: Option<string> := None;
    var failed := false;
    var intruders := 0;
    var k := 0;
    while k < MaxAuthFrames
      invariant k <= MaxAuthFrames
      invariant recognizedName.None? && !failed
      invariant ScanFrom(results, k, intruders) == goal
    {
      var frame := Read(frames, k);
      if frame.ReadFailed? {
        ObservedAt(store, frames, matches, k);
        failed := true;
        k := k + 1;
        break;
      }
      var name, count := ExamineFaces(store, frame.faces, matches);
      ObservedFrame(store, frames, matches, k, name, count);
      recognizedName := name;
      intruders := intruders + count;
      k := k + 1;
      if recognizedName.Some? {
        break;
      }
    }
    scan := AuthScan(k, recognizedName, failed, intruders);
    assert scan == goal;
  }
}
