/** What a scan sees of the camera. The capture device, the colour conversion and the face
    detector are outside the model: a frame is either a failed read or the faces found in it,
    each with the quality score the enrollment scan computes for it and its encoding. */
module Camera {

  /** A face encoding (the detector's fixed-length embedding). */
  type Encoding = seq<real>

  datatype Face = Face(score: real, encoding: Encoding)

  /** The result of one `video_capture.read()`. */
  datatype Frame = ReadFailed | Captured(faces: seq<Face>)

  /** The camera handle: `cv2.VideoCapture(0)` either did not open, or yields these frames in
      order. */
  datatype Feed = Unavailable | Opened(frames: seq<Frame>)

  /** The `k`-th read of an opened camera; reading past the recorded frames fails. */
  function Read(frames: seq<Frame>, k: nat): Frame {
    if k < |frames| then frames[k] else ReadFailed
  }
}
