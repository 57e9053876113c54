/** The three nested loops of sendToQueue that gather every face's bounding box of one
    vision response into one list, outer result first, then inner result, then face
    (main.go:124-134). */
module Aggregator {
  import opened Types

  /** The bounding boxes of a list of faces, in face order. */
  function FacePolygons(faces: seq<Face>): seq<Vertices>
    decreases |faces|
  {
    if faces == [] then []
    else
      var n := |faces| - 1;
      FacePolygons(faces[..n]) + [faces[n].boundingBox.vertices]
  }

  /** The bounding boxes found under a list of inner results. */
  function DetectionPolygons(results: seq<FeatureResult>): seq<Vertices>
    decreases |results|
  {
    if results == [] then []
    else
      var n := |results| - 1;
      DetectionPolygons(results[..n]) + FacePolygons(results[n].faceDetection.faces)
  }

  /** The bounding boxes found under a list of outer results. */
  function ResultPolygons(results: seq<ImageResult>): seq<Vertices>
    decreases |results|
  {
    if results == [] then []
    else
      var n := |results| - 1;
      ResultPolygons(results[..n]) + DetectionPolygons(results[n].results)
  }

  /** Every bounding box of a response, flattened. */
  function Coordinates(v: VisionResponse): seq<Vertices> {
    ResultPolygons(v.results)
  }

  /** The number of faces under a list of inner results. */
  function DetectionFaceCount(results: seq<FeatureResult>): nat
    decreases |results|
  {
    if results == [] then 0
    else
      var n := |results| - 1;
      DetectionFaceCount(results[..n]) + |results[n].faceDetection.faces|
  }

  /** The number of faces in a response, summed over outer and inner results. */
  function FaceCount(v: VisionResponse): nat {
    ResultFaceCount(v.results)
  }

  function ResultFaceCount(results: seq<ImageResult>): nat
    decreases |results|
  {
    if results == [] then 0
    else
      var n := |results| - 1;
      ResultFaceCount(results[..n]) + DetectionFaceCount(results[n].results)
  }

  /** One more face, inner result or outer result adds its boxes at the end. */
  lemma FacePolygonsStep(faces: seq<Face>, c: nat)
    requires c < |faces|
    ensures FacePolygons(faces[..c + 1]) == FacePolygons(faces[..c]) + [faces[c].boundingBox.vertices]
  {
    assert faces[..c + 1][..c] == faces[..c];
  }

  lemma DetectionPolygonsStep(results: seq<FeatureResult>, b: nat)
    requires b < |results|
    ensures DetectionPolygons(results[..b + 1]) ==
      DetectionPolygons(results[..b]) + FacePolygons(results[b].faceDetection.faces)
  {
    assert results[..b + 1][..b] == results[..b];
  }

  lemma ResultPolygonsStep(results: seq<ImageResult>, a: nat)
    requires a < |results|
    ensures ResultPolygons(results[..a + 1]) == ResultPolygons(results[..a]) + DetectionPolygons(results[a].results)
  {
    assert results[..a + 1][..a] == results[..a];
  }

  lemma {:induction false} FacePolygonsCount(faces: seq<Face>)
    ensures |FacePolygons(faces)| == |faces|
    decreases |faces|
  {
    if faces != [] {
      FacePolygonsCount(faces[..|faces| - 1]);
    }
  }

  lemma {:induction false} DetectionPolygonsCount(results: seq<FeatureResult>)
    ensures |DetectionPolygons(results)| == DetectionFaceCount(results)
    decreases |results|
  {
    if results != [] {
      var n := |results| - 1;
      DetectionPolygonsCount(results[..n]);
      FacePolygonsCount(results[n].faceDetection.faces);
    }
  }

  lemma {:induction false} ResultPolygonsCount(results: seq<ImageResult>)
    ensures |ResultPolygons(results)| == ResultFaceCount(results)
    decreases |results|
  {
    if results != [] {
      var n := |results| - 1;
      ResultPolygonsCount(results[..n]);
      DetectionPolygonsCount(results[n].results);
    }
  }

  /** One bounding box per detected face: the flattened list is as long as the face count. */
  lemma CoordinatesCount(v: VisionResponse)
    ensures |Coordinates(v)| == FaceCount(v)
    ensures Coordinates(v) == [] <==> FaceCount(v) == 0
  {
    ResultPolygonsCount(v.results);
  }

  /** Order is kept at the face level: faces listed later come later. */
  lemma {:induction false} FacePolygonsConcat(a: seq<Face>, b: seq<Face>)
    ensures FacePolygons(a + b) == FacePolygons(a) + FacePolygons(b)
    decreases |b|
  {
    if b == [] {
      assert a + b == a;
    } else {
      var m := |b| - 1;
      var ab := a + b;
      assert ab[..|ab| - 1] == a + b[..m];
      assert ab[|ab| - 1] == b[m];
      calc {
        FacePolygons(ab);
        FacePolygons(a + b[..m]) + [b[m].boundingBox.vertices];
        { FacePolygonsConcat(a, b[..m]); }
        FacePolygons(a) + FacePolygons(b[..m]) + [b[m].boundingBox.vertices];
        FacePolygons(a) + FacePolygons(b);
      }
    }
  }

  /** Order is kept at the inner-result level. */
  lemma {:induction false} DetectionPolygonsConcat(a: seq<FeatureResult>, b: seq<FeatureResult>)
    ensures DetectionPolygons(a + b) == DetectionPolygons(a) + DetectionPolygons(b)
    decreases |b|
  {
    if b == [] {
      assert a + b == a;
    } else {
      var m := |b| - 1;
      var ab := a + b;
      assert ab[..|ab| - 1] == a + b[..m];
      assert ab[|ab| - 1] == b[m];
      calc {
        DetectionPolygons(ab);
        DetectionPolygons(a + b[..m]) + FacePolygons(b[m].faceDetection.faces);
        { DetectionPolygonsConcat(a, b[..m]); }
        DetectionPolygons(a) + DetectionPolygons(b[..m]) + FacePolygons(b[m].faceDetection.faces);
        DetectionPolygons(a) + DetectionPolygons(b);
      }
    }
  }

  /** Order is kept at the outer-result level: the boxes of a response whose results are
      split in two are the boxes of the first part followed by those of the second. */
  lemma {:induction false} ResultPolygonsConcat(a: seq<ImageResult>, b: seq<ImageResult>)
    ensures ResultPolygons(a + b) == ResultPolygons(a) + ResultPolygons(b)
    decreases |b|
  {
    if b == [] {
      assert a + b == a;
    } else {
      var m := |b| - 1;
      var ab := a + b;
      assert ab[..|ab| - 1] == a + b[..m];
      assert ab[|ab| - 1] == b[m];
      calc {
        ResultPolygons(ab);
        ResultPolygons(a + b[..m]) + DetectionPolygons(b[m].results);
        { ResultPolygonsConcat(a, b[..m]); }
        ResultPolygons(a) + ResultPolygons(b[..m]) + DetectionPolygons(b[m].results);
        ResultPolygons(a) + ResultPolygons(b);
      }
    }
  }

  /** The face at position k contributes the k-th box. */
  lemma {:induction false} FacePolygonsAt(faces: seq<Face>, k: nat)
    requires k < |faces|
    ensures |FacePolygons(faces)| == |faces|
    ensures FacePolygons(faces)[k] == faces[k].boundingBox.vertices
    decreases |faces|
  {
    var n := |faces| - 1;
    FacePolygonsCount(faces);
    if k < n {
      FacePolygonsAt(faces[..n], k);
    } else {
      FacePolygonsCount(faces[..n]);
    }
  }

  /** A box is in the flattened list of an inner-result list exactly when some face there has it. */
  lemma {:induction false} DetectionPolygonsMembers(results: seq<FeatureResult>, p: Vertices)
    ensures p in DetectionPolygons(results) <==>
      exists j, k :: 0 <= j < |results| && 0 <= k < |results[j].faceDetection.faces| &&
        results[j].faceDetection.faces[k].boundingBox.vertices == p
    decreases |results|
  {
    if results != [] {
      var n := |results| - 1;
      var prefix := results[..n];
      var faces := results[n].faceDetection.faces;
      assert DetectionPolygons(results) == DetectionPolygons(prefix) + FacePolygons(faces);
      DetectionPolygonsMembers(prefix, p);
      if p in DetectionPolygons(prefix) {
        var j, k :| 0 <= j < |prefix| && 0 <= k < |prefix[j].faceDetection.faces| &&
          prefix[j].faceDetection.faces[k].boundingBox.vertices == p;
        assert results[j] == prefix[j];
      } else if p in FacePolygons(faces) {
        FacePolygonsCount(faces);
        var k :| 0 <= k < |FacePolygons(faces)| && FacePolygons(faces)[k] == p;
        FacePolygonsAt(faces, k);
        assert results[n].faceDetection.faces[k].boundingBox.vertices == p;
      } else {
        forall j, k | 0 <= j < |results| && 0 <= k < |results[j].faceDetection.faces|
          ensures results[j].faceDetection.faces[k].boundingBox.vertices != p
        {
          if j < n {
            assert results[j] == prefix[j];
          } else {
            FacePolygonsAt(faces, k);
          }
        }
      }
    }
  }

  /** A box is in a response's flattened list exactly when some face of the response has it. */
  lemma {:induction false} ResultPolygonsMembers(results: seq<ImageResult>, p: Vertices)
    ensures p in ResultPolygons(results) <==>
      exists i, j, k :: 0 <= i < |results| && 0 <= j < |results[i].results| &&
        0 <= k < |results[i].results[j].faceDetection.faces| &&
        results[i].results[j].faceDetection.faces[k].boundingBox.vertices == p
    decreases |results|
  {
    if results != [] {
      var n := |results| - 1;
      var prefix := results[..n];
      var inner := results[n].results;
      assert ResultPolygons(results) == ResultPolygons(prefix) + DetectionPolygons(inner);
      ResultPolygonsMembers(prefix, p);
      DetectionPolygonsMembers(inner, p);
      if p in ResultPolygons(prefix) {
        var i, j, k :| 0 <= i < |prefix| && 0 <= j < |prefix[i].results| &&
          0 <= k < |prefix[i].results[j].faceDetection.faces| &&
          prefix[i].results[j].faceDetection.faces[k].boundingBox.vertices == p;
        assert results[i] == prefix[i];
      } else if p in DetectionPolygons(inner) {
        var j, k :| 0 <= j < |inner| && 0 <= k < |inner[j].faceDetection.faces| &&
          inner[j].faceDetection.faces[k].boundingBox.vertices == p;
        assert results[n].results[j].faceDetection.faces[k].boundingBox.vertices == p;
      } else {
        forall i, j, k | 0 <= i < n && 0 <= j < |results[i].results| &&
          0 <= k < |results[i].results[j].faceDetection.faces|
          ensures results[i].results[j].faceDetection.faces[k].boundingBox.vertices != p
        {
          assert results[i] == prefix[i];
        }
      }
    }
  }

  /** The list gathered for a response holds exactly the bounding boxes of its faces. */
  lemma CoordinatesMembers(v: VisionResponse, p: Vertices)
    ensures p in Coordinates(v) <==>
      exists i, j, k :: 0 <= i < |v.results| && 0 <= j < |v.results[i].results| &&
        0 <= k < |v.results[i].results[j].faceDetection.faces| &&
        v.results[i].results[j].faceDetection.faces[k].boundingBox.vertices == p
  {
    ResultPolygonsMembers(v.results, p);
  }
}
