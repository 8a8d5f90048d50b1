/** The `summary` object of the upload response (app.py:191-195): the
    number of detections, the distinct defect types, and the mean
    confidence, which is 0 for an empty list. Confidences are exact reals. */
module Summary {

  import opened Defects

  datatype Summary = Summary(totalDefects: nat, defectTypes: seq<string>, avgConfidence: real)

  /** The set of types occurring in a list of detections. */
  ghost function Kinds(ds: seq<Detection>): set<string>
  {
    set i | 0 <= i < |ds| :: ds[i].kind
  }

  predicate NoDuplicates(s: seq<string>)
  {
    forall i, j :: 0 <= i < j < |s| ==> s[i] != s[j]
  }

  /** `list(set([d['type'] for d in detections]))`: every type present,
      each exactly once, and nothing else. Python leaves the order
      unspecified; this one keeps first occurrences. */
  function DistinctKinds(ds: seq<Detection>): (r: seq<string>)
    ensures NoDuplicates(r)
    ensures forall k :: k in r <==> k in Kinds(ds)
    ensures |r| <= |ds|
  {
    if ds == [] then []
    else
      var init := ds[..|ds| - 1];
      var rest := DistinctKinds(init);
      assert Kinds(ds) == Kinds(init) + {ds[|ds| - 1].kind} by {
        assert forall i :: 0 <= i < |init| ==> init[i] == ds[i];
      }
      if ds[|ds| - 1].kind in rest then rest else rest + [ds[|ds| - 1].kind]
  }

  function SumConfidence(ds: seq<Detection>): real
  {
    if ds == [] then 0.0 else SumConfidence(ds[..|ds| - 1]) + ds[|ds| - 1].confidence
  }

  /** The summary built at app.py:191-195. */
  function Summarize(ds: seq<Detection>): (s: Summary)
    ensures s.totalDefects == |ds|
    ensures ds == [] ==> s.avgConfidence == 0.0
    ensures ds != [] ==> s.avgConfidence * |ds| as real == SumConfidence(ds)
    ensures NoDuplicates(s.defectTypes)
    ensures forall k :: k in s.defectTypes <==> k in Kinds(ds)
  {
    Summary(|ds|, DistinctKinds(ds),
            if |ds| > 0 then SumConfidence(ds) / |ds| as real else 0.0)
  }

  /** The sum of n confidences that all lie in [lo, hi] lies in [n*lo, n*hi]. */
  lemma {:induction false} SumBounds(ds: seq<Detection>, lo: real, hi: real)
    requires forall i :: 0 <= i < |ds| ==> lo <= ds[i].confidence <= hi
    ensures |ds| as real * lo <= SumConfidence(ds) <= |ds| as real * hi
  {
    if ds != [] {
      var init := ds[..|ds| - 1];
      SumBounds(init, lo, hi);
      assert (|init| + 1) as real * lo == |init| as real * lo + lo;
      assert (|init| + 1) as real * hi == |init| as real * hi + hi;
    }
  }

  /** The mean lies between the smallest and the largest confidence: with
      every confidence in [lo, hi] (such as [0, 1]) so is the average. */
  lemma {:induction false} AverageWithinBounds(ds: seq<Detection>, lo: real, hi: real)
    requires forall i :: 0 <= i < |ds| ==> lo <= ds[i].confidence <= hi
    requires ds != [] || lo <= 0.0 <= hi
    ensures lo <= Summarize(ds).avgConfidence <= hi
  {
    if ds != [] {
      SumBounds(ds, lo, hi);
      var n := |ds| as real;
      MeanBetween(SumConfidence(ds), n, lo, hi);
    }
  }

  /** A total between n*lo and n*hi has its mean between lo and hi. */
  lemma MeanBetween(sum: real, n: real, lo: real, hi: real)
    requires n > 0.0 && n * lo <= sum <= n * hi
    ensures lo <= sum / n <= hi
  {
    var avg := sum / n;
    assert avg * n == sum;
  }

  /** Repeated types are reported once: a list whose detections all share
      one type reports exactly that type. */
  lemma {:induction false} SingleKindReportedOnce(ds: seq<Detection>, k: string)
    requires ds != []
    requires forall i :: 0 <= i < |ds| ==> ds[i].kind == k
    ensures Summarize(ds).defectTypes == [k]
  {
    if |ds| > 1 {
      SingleKindReportedOnce(ds[..|ds| - 1], k);
    }
  }

  /** The three simulated detections (app.py:67-86) summarise to 3 defects
      of three distinct types with mean confidence (0.89 + 0.95 + 0.76) / 3. */
  lemma SimulatedSummary(b1: BBox, b2: BBox, b3: BBox, t1: string, t2: string, t3: string)
    ensures var ds := [Detection("solder_bridge", 0.89, b1, t1),
                       Detection("missing_component", 0.95, b2, t2),
                       Detection("cold_solder", 0.76, b3, t3)];
            var s := Summarize(ds);
            && s.totalDefects == 3
            && (forall k :: k in s.defectTypes <==> k in {"solder_bridge", "missing_component", "cold_solder"})
            && |s.defectTypes| == 3
            && s.avgConfidence == 2.6 / 3.0
  {
    var ds := [Detection("solder_bridge", 0.89, b1, t1),
               Detection("missing_component", 0.95, b2, t2),
               Detection("cold_solder", 0.76, b3, t3)];
    assert ds[..2] == [ds[0], ds[1]] && ds[..1] == [ds[0]];
    assert Kinds(ds) == {"solder_bridge", "missing_component", "cold_solder"} by {
      assert ds[0].kind == "solder_bridge" && ds[1].kind == "missing_component" && ds[2].kind == "cold_solder";
    }
    assert SumConfidence(ds[..1]) == 0.89;
    assert SumConfidence(ds[..2]) == 0.89 + 0.95;
    assert SumConfidence(ds) == 2.6;
    assert "missing_component" != "solder_bridge";
    assert "cold_solder" != "solder_bridge" && "cold_solder" != "missing_component";
  }
}
