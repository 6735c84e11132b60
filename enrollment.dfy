/** The enrollment scan of `register_face`: it keeps the best-scoring face seen so far and
    stops only once at least 30 frames were read and the best score exceeds 500, or when a
    read fails. The quality score itself (face area over distance from the frame centre) is
    computed outside the model and arrives with each face. */
module Enrollment {
  import opened Wrappers
  import opened Camera

  /** `frame_count >= 30`: the fewest frames after which the scan may complete. */
  const MinFrames: nat := 30
  /** `best_face_score > 500`: the score that completes the scan. */
  const QualityThreshold: real := 500.0

  /** `best_face_score` and `best_face_encoding`; the score starts at 0 and the encoding at
      None. */
  datatype BestFace = BestFace(score: real, encoding: Option<Encoding>)

  /** The best face after a run of faces: updated only on a strictly greater score. */
  function BestOf(faces: seq<Face>): BestFace {
    if faces == [] then BestFace(0.0, None)
    else
      var best := BestOf(faces[..|faces| - 1]);
      var face := faces[|faces| - 1];
      if face.score > best.score then BestFace(face.score, Some(face.encoding)) else best
  }

  /** Face `k` has the best score of the run and no earlier face has that score. */
  ghost predicate EarliestBest(faces: seq<Face>, k: nat) {
    k < |faces|
    && (forall j :: 0 <= j < |faces| ==> faces[j].score <= faces[k].score)
    && (forall j :: 0 <= j < k ==> faces[j].score < faces[k].score)
  }

  /** The best face is the earliest face with the highest score, when that score is
      positive; with no positive score there is none and the score stays 0. */
  lemma {:induction false} BestOfIsEarliestMaximum(faces: seq<Face>)
    ensures var best := BestOf(faces);
      && best.score >= 0.0
      && (forall j :: 0 <= j < |faces| ==> faces[j].score <= best.score)
      && (best.encoding.None? <==> forall j :: 0 <= j < |faces| ==> faces[j].score <= 0.0)
      && (best.encoding.None? ==> best.score == 0.0)
      && (best.encoding.Some? ==>
            exists k: nat :: EarliestBest(faces, k) && faces[k] == Face(best.score, best.encoding.value))
  {
    if faces != [] {
      var earlier := faces[..|faces| - 1];
      var face := faces[|faces| - 1];
      BestOfIsEarliestMaximum(earlier);
      var before := BestOf(earlier);
      assert forall j :: 0 <= j < |earlier| ==> earlier[j] == faces[j];
      if face.score > before.score {
        assert EarliestBest(faces, |faces| - 1);
      } else if before.encoding.Some? {
        var k: nat :| EarliestBest(earlier, k) && earlier[k] == Face(before.score, before.encoding.value);
        assert EarliestBest(faces, k);
      }
    }
  }

  /** The faces found in one read; a failed read has none. */
  function FacesOf(frame: Frame): seq<Face> {
    match frame
    case ReadFailed => []
    case Captured(faces) => faces
  }

  /** The faces of a run of frames, in order. */
  function AllFaces(frames: seq<Frame>): seq<Face> {
    if frames == [] then [] else AllFaces(frames[..|frames| - 1]) + FacesOf(frames[|frames| - 1])
  }

  /** Reading the next frame adds its faces after those already seen. */
  lemma AllFacesStep(frames: seq<Frame>, n: nat)
    requires n < |frames|
    ensures AllFaces(frames[..n + 1]) == AllFaces(frames[..n]) + FacesOf(frames[n])
  {
    assert frames[..n + 1][..n] == frames[..n];
  }

  /** Scoring face `j` of a frame continues the running best. */
  lemma BestOfStep(seen: seq<Face>, faces: seq<Face>, j: nat)
    requires j < |faces|
    ensures var best := BestOf(seen + faces[..j]);
      BestOf(seen + faces[..j + 1])
        == if faces[j].score > best.score then BestFace(faces[j].score, Some(faces[j].encoding)) else best
  {
    var longer := seen + faces[..j + 1];
    assert longer[..|longer| - 1] == seen + faces[..j];
  }

  /** How an enrollment scan ended: frames successfully read, the best face, and whether it
      stopped on a failed read rather than on the completion condition. */
  datatype EnrollScan = EnrollScan(frameCount: nat, best: BestFace, readFailed: bool)

  /** `frame_count >= 30 and best_face_score > 500`. */
  predicate Complete(frameCount: nat, best: BestFace) {
    frameCount >= MinFrames && best.score > QualityThreshold
  }

  /** The best face once the first `m` frames were read. */
  function BestAfter(frames: seq<Frame>, m: nat): BestFace
    requires m <= |frames|
  {
    BestOf(AllFaces(frames[..m]))
  }

  /** The completion test holds right after the first `m` frames were read. */
  predicate CompletesAt(frames: seq<Frame>, m: nat)
    requires m <= |frames|
  {
    Complete(m, BestAfter(frames, m))
  }

  /** The scan once `n` frames were read without completing it. */
  function EnrollFrom(frames: seq<Frame>, n: nat): (scan: EnrollScan)
    requires n <= |frames|
    decreases |frames| - n
    ensures n <= scan.frameCount <= |frames|
  {
    var best := BestAfter(frames, n);
    if Complete(n, best) then EnrollScan(n, best, false)
    else if Read(frames, n).ReadFailed? then EnrollScan(n, best, true)
    else EnrollFrom(frames, n + 1)
  }

  /** The scan from `n` on stops either complete or on a failed read, with the best face of
      the frames read by then. */
  lemma {:induction false} EnrollFromStops(frames: seq<Frame>, n: nat)
    requires n <= |frames|
    decreases |frames| - n
    ensures var scan := EnrollFrom(frames, n);
      && scan.best == BestAfter(frames, scan.frameCount)
      && (scan.readFailed <==> !Complete(scan.frameCount, scan.best))
      && (scan.readFailed ==> Read(frames, scan.frameCount).ReadFailed?)
  {
    var best := BestAfter(frames, n);
    if !Complete(n, best) && !Read(frames, n).ReadFailed? {
      EnrollFromStops(frames, n + 1);
    }
  }

  /** Every frame the scan from `n` reads before it stops was captured. */
  lemma {:induction false} EnrollFromCaptured(frames: seq<Frame>, n: nat)
    requires n <= |frames|
    decreases |frames| - n
    ensures forall i :: n <= i < EnrollFrom(frames, n).frameCount ==> frames[i].Captured?
  {
    if !Complete(n, BestAfter(frames, n)) && !Read(frames, n).ReadFailed? {
      EnrollFromCaptured(frames, n + 1);
    }
  }

  /** No point before the one the scan from `n` stops at completes it: it stops at the first
      completing point. */
  lemma {:induction false} EnrollFromFirst(frames: seq<Frame>, n: nat)
    requires n <= |frames|
    decreases |frames| - n
    ensures forall m :: n <= m < EnrollFrom(frames, n).frameCount ==> !CompletesAt(frames, m)
  {
    if !CompletesAt(frames, n) && !Read(frames, n).ReadFailed? {
      EnrollFromFirst(frames, n + 1);
    }
  }

  /** A whole enrollment scan. The loop has no frame cap: it stops at the first point where at
      least 30 frames were read and the best score exceeds 500, or at the first failed read,
      and in both cases the best face found so far is kept. */
  function EnrollAll(frames: seq<Frame>): (scan: EnrollScan)
    ensures scan.frameCount <= |frames|
    ensures scan.best == BestOf(AllFaces(frames[..scan.frameCount]))
    ensures !scan.readFailed <==> Complete(scan.frameCount, scan.best)
    ensures scan.readFailed ==> Read(frames, scan.frameCount).ReadFailed?
    ensures forall i :: 0 <= i < scan.frameCount ==> frames[i].Captured?
    ensures forall m :: 0 <= m < scan.frameCount ==> !CompletesAt(frames, m)
  {
    EnrollFromStops(frames, 0);
    EnrollFromCaptured(frames, 0);
    EnrollFromFirst(frames, 0);
    EnrollFrom(frames, 0)
  }

  /** The scan is not capped at 30 frames: when no face ever scores above 500, it reads every
      frame of the recorded run and ends only on the failed read after them. A recorded run is
      finite; for a camera that never stops delivering frames see EndlessFeedNeverStops. */
  lemma NoCapWithoutQuality(frames: seq<Frame>)
    requires forall i :: 0 <= i < |frames| ==> frames[i].Captured?
    requires forall f :: f in AllFaces(frames) ==> f.score <= QualityThreshold
    ensures EnrollAll(frames).frameCount == |frames| && EnrollAll(frames).readFailed
  {
    var scan := EnrollAll(frames);
    var seen := AllFaces(frames[..scan.frameCount]);
    BestOfIsEarliestMaximum(seen);
    AllFacesPrefix(frames, scan.frameCount);
    if scan.best.encoding.Some? {
      var k: nat :| EarliestBest(seen, k) && seen[k] == Face(scan.best.score, scan.best.encoding.value);
      assert seen[k] in AllFaces(frames);
    }
  }

  /** The faces of a prefix of the frames are faces of all of them. */
  lemma {:induction false} AllFacesPrefix(frames: seq<Frame>, n: nat)
    requires n <= |frames|
    ensures forall f :: f in AllFaces(frames[..n]) ==> f in AllFaces(frames)
  {
    if n < |frames| {
      var last := frames[..|frames| - 1];
      assert frames[..n] == last[..n];
      AllFacesPrefix(last, n);
      assert frames[..|frames|] == frames;
      assert AllFaces(frames) == AllFaces(last) + FacesOf(frames[|frames| - 1]);
    } else {
      assert frames[..n] == frames;
    }
  }

  /** Every face of a run of frames is a face of one of its frames. */
  lemma {:induction false} AllFacesFromFrames(frames: seq<Frame>)
    ensures forall f :: f in AllFaces(frames) ==> exists i :: 0 <= i < |frames| && f in FacesOf(frames[i])
  {
    if frames != [] {
      var init := frames[..|frames| - 1];
      AllFacesFromFrames(init);
      assert forall i :: 0 <= i < |init| ==> init[i] == frames[i];
    }
  }

  /** The first `n` frames of a camera that never stops delivering frames. */
  function FirstFrames(feed: nat -> Frame, n: nat): (frames: seq<Frame>)
    ensures |frames| == n && forall i :: 0 <= i < n ==> frames[i] == feed(i)
  {
    if n == 0 then [] else FirstFrames(feed, n - 1) + [feed(n - 1)]
  }

  /** On a camera that keeps delivering frames none of whose faces scores above 500, the scan
      reads the first `n` frames without completing, whatever `n`: it would go on reading as
      long as frames arrive, so on such an endless feed the loop never ends. */
  lemma EndlessFeedNeverStops(feed: nat -> Frame, n: nat)
    requires forall i: nat :: feed(i).Captured?
    requires forall i: nat, f :: f in FacesOf(feed(i)) ==> f.score <= QualityThreshold
    ensures EnrollAll(FirstFrames(feed, n)).frameCount == n
    ensures !Complete(n, BestAfter(FirstFrames(feed, n), n))
  {
    var frames := FirstFrames(feed, n);
    AllFacesFromFrames(frames);
    NoCapWithoutQuality(frames);
  }

  /** The inner loop over the faces of one frame: a face replaces the running best only on a
      strictly greater score. */
  method ScoreFaces(ghost seen: seq<Face>, faces: seq<Face>, score: real, encoding: Option<Encoding>)
    returns (bestScore: real, bestEncoding: Option<Encoding>)
    requires BestFace(score, encoding) == BestOf(seen)
    ensures BestFace(bestScore, bestEncoding) == BestOf(seen + faces)
  {
    bestScore, bestEncoding := score, encoding;
    var j := 0;
    assert seen + faces[..0] == seen;
    while j < |faces|
      invariant j <= |faces|
      invariant BestFace(bestScore, bestEncoding) == BestOf(seen + faces[..j])
    {
      BestOfStep(seen, faces, j);
      if faces[j].score > bestScore {
        bestScore := faces[j].score;
        bestEncoding := Some(faces[j].encoding);
      }
      j := j + 1;
    }
    assert faces[..j] == faces;
  }

  /** The frame loop of `register_face`, without its side effects: the read-failure handling
      and the commit are applied by the caller from the returned scan. */
  method EnrollmentScan(frames: seq<Frame>) returns (scan: EnrollScan)
    ensures scan == EnrollAll(frames)
  {
    var frameCount := 0;
    var bestFaceEncoding: Option<Encoding> := None;
    var bestFaceScore := 0.0;
    var scanComplete := false;
    var failed := false;
    ghost var goal := EnrollFrom(frames, 0);
    while !scanComplete
      invariant frameCount <= |frames|
      invariant BestFace(bestFaceScore, bestFaceEncoding) == BestAfter(frames, frameCount)
      invariant !scanComplete ==> EnrollFrom(frames, frameCount) == goal
      invariant !scanComplete ==> !Complete(frameCount, BestFace(bestFaceScore, bestFaceEncoding))
      invariant scanComplete ==> EnrollScan(frameCount, BestFace(bestFaceScore, bestFaceEncoding), false) == goal
      invariant !failed
      decreases |frames| - frameCount, !scanComplete
    {
      var frame := Read(frames, frameCount);
      if frame.ReadFailed? {
        failed := true;
        break;
      }
      bestFaceScore, bestFaceEncoding :=
        ScoreFaces(AllFaces(frames[..frameCount]), frame.faces, bestFaceScore, bestFaceEncoding);
      AllFacesStep(frames, frameCount);
      frameCount := frameCount + 1;
      if frameCount >= MinFrames && bestFaceScore > QualityThreshold {
        scanComplete := true;
      }
    }
    scan := EnrollScan(frameCount, BestFace(bestFaceScore, bestFaceEncoding), failed);
    assert scan == goal;
  }
}
