/**
 * The deterministic part of `lcats/analysis/scene_analysis.py`: the scene
 * label normaliser, the extractor-versus-auditor agreement tally, and the
 * attachment of semantic judgments to segments with validated offsets.
 * `normalize_preview` is the same function as `_normalize_preview` of the
 * segmenter, modelled by `SegmentAudit.NormalizePreview`.
 */
module SceneAnalysis {
  import opened Wrappers
  import opened Json

  // ---------------------------------------------------------------- normalize_label

  /** The four allowed scene types and the catch-all `"unknown"`. */
  datatype SceneType = DramaticScene | DramaticSequel | NarrativeScene | OtherScene | UnknownScene

  /** The label string of a scene type. */
  function Name(t: SceneType): string
  {
    match t
    case DramaticScene => "dramatic_scene"
    case DramaticSequel => "dramatic_sequel"
    case NarrativeScene => "narrative_scene"
    case OtherScene => "other"
    case UnknownScene => "unknown"
  }

  /** `ALLOWED_SCENE_TYPES`. */
  const AllowedSceneTypes: seq<string> := ["dramatic_scene", "dramatic_sequel", "narrative_scene", "other"]

  /** The scene type an allowed label names. */
  function Allowed(s: string): (r: Option<SceneType>)
    ensures r.Some? ==> Name(r.value) == s && r.value != UnknownScene
  {
    if s == "dramatic_scene" then Some(DramaticScene)
    else if s == "dramatic_sequel" then Some(DramaticSequel)
    else if s == "narrative_scene" then Some(NarrativeScene)
    else if s == "other" then Some(OtherScene)
    else None
  }

  /** `Allowed` recognises exactly the entries of `ALLOWED_SCENE_TYPES`. */
  lemma AllowedIsList(s: string)
    ensures Allowed(s).Some? <==> s in AllowedSceneTypes
  {
  }

  /** The names are distinct, so comparing labels compares scene types. */
  lemma NameInjective(a: SceneType, b: SceneType)
    ensures Name(a) == Name(b) <==> a == b
  {
  }

  /**
   * `normalize_label(label)`: an allowed scene type is kept, anything else
   * (a typo, another spelling, `None`, a non-string) becomes `"unknown"`.
   */
  function NormalizeLabel(raw: Value): (r: SceneType)
    ensures r != UnknownScene <==> raw.Str? && Allowed(raw.s).Some?
    ensures r != UnknownScene ==> raw == Str(Name(r))
  {
    if raw.Str? && Allowed(raw.s).Some? then Allowed(raw.s).value else UnknownScene
  }

  /** Normalising twice changes nothing: normalised labels are fixed points. */
  lemma NormalizeLabelIdempotent(raw: Value)
    ensures NormalizeLabel(Str(Name(NormalizeLabel(raw)))) == NormalizeLabel(raw)
  {
  }

  // ---------------------------------------------------------------- summarize_type_agreement

  /** The two labels that `summarize_type_agreement` reads off one segment. */
  datatype SegmentLabels = SegmentLabels(whole: SceneType, perScene: SceneType)

  /** `seg.get` on something that is not a dictionary. */
  function NoGet(v: Value): Exception
  {
    Exception(AttributeError, "'" + TypeName(v) + "' object has no attribute 'get'")
  }

  /**
   * The extractor label falls back from `whole_story_type` to
   * `segment_type`; the auditor label from `per_scene_type` to
   * `segment_eval.label`, where a falsy `segment_eval` reads as `{}` and a
   * truthy non-dictionary one raises.
   */
  function LabelsOf(seg: Value): (r: Result<SegmentLabels>)
    ensures r.Err? <==> (!seg.Obj? || (!Truthy(GetValue(seg.fields, "per_scene_type"))
      && Truthy(GetValue(seg.fields, "segment_eval")) && !GetValue(seg.fields, "segment_eval").Obj?))
  {
    if !seg.Obj? then Err(NoGet(seg))
    else
      var d := seg.fields;
      var whole := NormalizeLabel(Or(GetValue(d, "whole_story_type"), GetValue(d, "segment_type")));
      var pst := GetValue(d, "per_scene_type");
      if Truthy(pst) then Ok(SegmentLabels(whole, NormalizeLabel(pst)))
      else
        var ev := Or(GetValue(d, "segment_eval"), Obj(map[]));
        if ev.Obj? then Ok(SegmentLabels(whole, NormalizeLabel(GetValue(ev.fields, "label"))))
        else Err(NoGet(ev))
  }

  /** `story_data.get("segments") or []`, and `[]` again for anything but a list. */
  function SegmentsOf(storyData: map<string, Value>): (r: seq<Value>)
    ensures "segments" in storyData && storyData["segments"].Arr? ==> r == storyData["segments"].items
    ensures !("segments" in storyData && storyData["segments"].Arr?) ==> r == []
  {
    var v := Or(GetValue(storyData, "segments"), Arr([]));
    if v.Arr? then v.items else []
  }

  /** The labels of every segment, or the error of the first segment whose labels cannot be read. */
  function AllLabels(segs: seq<Value>): (r: Result<seq<SegmentLabels>>)
    ensures r.Ok? ==> |r.value| == |segs| && forall k :: 0 <= k < |segs| ==> LabelsOf(segs[k]) == Ok(r.value[k])
    ensures r.Err? ==> exists k :: (0 <= k < |segs| && LabelsOf(segs[k]).Err? && r.error == LabelsOf(segs[k]).error
      && forall j :: 0 <= j < k ==> LabelsOf(segs[j]).Ok?)
  {
    if |segs| == 0 then Ok([])
    else match LabelsOf(segs[0])
      case Err(e) => Err(e)
      case Ok(l) =>
        match AllLabels(segs[1..])
        case Err(e) =>
          assert forall k :: 0 <= k < |segs| - 1 ==> segs[1..][k] == segs[k + 1];
          Err(e)
        case Ok(ls) => Ok([l] + ls)
  }

  /**
   * The `by_extractor` / `by_auditor` dictionary: one count for each of the
   * five label keys.
   */
  datatype Counts = Counts(dramaticScene: nat, dramaticSequel: nat, narrativeScene: nat, other: nat, unknown: nat)
  {
    /** The entry for one label. */
    function Count(t: SceneType): nat
    {
      match t
      case DramaticScene => dramaticScene
      case DramaticSequel => dramaticSequel
      case NarrativeScene => narrativeScene
      case OtherScene => other
      case UnknownScene => unknown
    }

    /** `by_x[t] = by_x.get(t, 0) + 1`. */
    function Inc(t: SceneType): (r: Counts)
      ensures r.Count(t) == Count(t) + 1 && forall u :: u != t ==> r.Count(u) == Count(u)
    {
      match t
      case DramaticScene => this.(dramaticScene := dramaticScene + 1)
      case DramaticSequel => this.(dramaticSequel := dramaticSequel + 1)
      case NarrativeScene => this.(narrativeScene := narrativeScene + 1)
      case OtherScene => this.(other := other + 1)
      case UnknownScene => this.(unknown := unknown + 1)
    }

    /** The sum of the five entries. */
    function Sum(): nat
    {
      dramaticScene + dramaticSequel + narrativeScene + other + unknown
    }

    /** The dictionary itself: exactly the five label keys. */
    function ToDict(): (r: map<string, Value>)
      ensures forall t :: Name(t) in r && r[Name(t)] == Int(Count(t))
    {
      map[Name(DramaticScene) := Int(dramaticScene), Name(DramaticSequel) := Int(dramaticSequel),
          Name(NarrativeScene) := Int(narrativeScene), Name(OtherScene) := Int(other), Name(UnknownScene) := Int(unknown)]
    }
  }

  /** The dictionary of counts has no key besides the five labels. */
  lemma ToDictKeys(c: Counts, k: string)
    requires k in c.ToDict()
    ensures exists t :: Name(t) == k
  {
    if k == Name(DramaticScene) {} else if k == Name(DramaticSequel) {} else if k == Name(NarrativeScene) {}
    else if k == Name(OtherScene) {} else { assert k == Name(UnknownScene); }
  }

  /** The tally after counting `labels` one at a time from all zeros. */
  function Tally(labels: seq<SceneType>): Counts
  {
    if |labels| == 0 then Counts(0, 0, 0, 0, 0)
    else Tally(labels[..|labels| - 1]).Inc(labels[|labels| - 1])
  }

  /** How often `x` occurs in `xs`. */
  function Occurrences(xs: seq<SceneType>, x: SceneType): nat
  {
    if |xs| == 0 then 0 else Occurrences(xs[..|xs| - 1], x) + (if xs[|xs| - 1] == x then 1 else 0)
  }

  /** Each entry of the tally is the number of times its label occurs. */
  lemma {:induction false} TallyCounts(labels: seq<SceneType>, k: SceneType)
    ensures Tally(labels).Count(k) == Occurrences(labels, k)
  {
    if |labels| > 0 {
      TallyCounts(labels[..|labels| - 1], k);
    }
  }

  /** The five entries of a tally add up to the number of labels counted. */
  lemma {:induction false} TallySumIsLength(labels: seq<SceneType>)
    ensures Tally(labels).Sum() == |labels|
  {
    if |labels| > 0 {
      TallySumIsLength(labels[..|labels| - 1]);
    }
  }

  function Wholes(ls: seq<SegmentLabels>): (r: seq<SceneType>)
    ensures |r| == |ls| && forall k :: 0 <= k < |ls| ==> r[k] == ls[k].whole
  {
    seq(|ls|, k requires 0 <= k < |ls| => ls[k].whole)
  }

  function PerScenes(ls: seq<SegmentLabels>): (r: seq<SceneType>)
    ensures |r| == |ls| && forall k :: 0 <= k < |ls| ==> r[k] == ls[k].perScene
  {
    seq(|ls|, k requires 0 <= k < |ls| => ls[k].perScene)
  }

  /** The number of segments on whose label extractor and auditor agree. */
  function Agreements(ls: seq<SegmentLabels>): (r: nat)
    ensures r <= |ls|
  {
    if |ls| == 0 then 0
    else Agreements(ls[..|ls| - 1]) + (if ls[|ls| - 1].whole == ls[|ls| - 1].perScene then 1 else 0)
  }

  /** Every segment agrees exactly when the count of agreements is the number of segments. */
  lemma {:induction false} AgreementsAll(ls: seq<SegmentLabels>)
    ensures Agreements(ls) == |ls| <==> forall k :: 0 <= k < |ls| ==> ls[k].whole == ls[k].perScene
  {
    if |ls| > 0 {
      var init := ls[..|ls| - 1];
      AgreementsAll(init);
      assert forall k :: 0 <= k < |init| ==> init[k] == ls[k];
    }
  }

  /**
   * The report of `summarize_type_agreement`; `agreement_rate` (a float in
   * the source) is kept as the fraction `rateNum / rateDen`.
   */
  datatype Agreement = Agreement(
    segmentsTotal: nat, agreements: nat, disagreements: nat, rateNum: nat, rateDen: nat,
    byExtractor: Counts, byAuditor: Counts)

  /** The fields of `agreement_rate`: `agreements / total`, and 0 for no segments. */
  function Rate(agreements: nat, total: nat): (nat, nat)
  {
    if total > 0 then (agreements, total) else (0, 1)
  }

  /**
   * `summarize_type_agreement(story_data)`: a loop over the segments that
   * counts every extractor label and every auditor label and the segments
   * on which the two agree.
   */
  method SummarizeTypeAgreement(storyData: map<string, Value>) returns (r: Result<Agreement>)
    ensures var segs := SegmentsOf(storyData);
      r.Ok? <==> AllLabels(segs).Ok?
    ensures r.Err? ==> r.error == AllLabels(SegmentsOf(storyData)).error
    ensures r.Ok? ==>
      var ls := AllLabels(SegmentsOf(storyData)).value;
      && r.value.segmentsTotal == |SegmentsOf(storyData)|
      && r.value.agreements == Agreements(ls)
      && r.value.disagreements == |ls| - Agreements(ls)
      && (r.value.rateNum, r.value.rateDen) == Rate(Agreements(ls), |ls|)
      && r.value.byExtractor == Tally(Wholes(ls))
      && r.value.byAuditor == Tally(PerScenes(ls))
  {
    var segs := SegmentsOf(storyData);
    var byExtractor := Counts(0, 0, 0, 0, 0);
    var byAuditor := Counts(0, 0, 0, 0, 0);
    var agreements := 0;
    var total := 0;
    var labels: seq<SegmentLabels> := [];
    while total < |segs|
      invariant 0 <= total <= |segs| && |labels| == total
      invariant forall k :: 0 <= k < total ==> LabelsOf(segs[k]) == Ok(labels[k])
      invariant byExtractor == Tally(Wholes(labels)) && byAuditor == Tally(PerScenes(labels))
      invariant agreements == Agreements(labels)
    {
      var l := LabelsOf(segs[total]);
      if l.Err? {
        FirstError(segs, labels, total);
        return Err(l.error);
      }
      var whole, perScene := l.value.whole, l.value.perScene;
      byExtractor := byExtractor.Inc(whole);
      byAuditor := byAuditor.Inc(perScene);
      if whole == perScene {
        agreements := agreements + 1;
      }
      LabelsSnoc(labels, l.value);
      labels := labels + [l.value];
      total := total + 1;
    }
    AllLabelsOk(segs, labels);
    var disagreements := if total - agreements < 0 then 0 else total - agreements;
    var (rateNum, rateDen) := Rate(agreements, total);
    r := Ok(Agreement(total, agreements, disagreements, rateNum, rateDen, byExtractor, byAuditor));
  }

  lemma TallySnoc(xs: seq<SceneType>, x: SceneType)
    ensures Tally(xs + [x]) == Tally(xs).Inc(x)
  {
    assert (xs + [x])[..|xs|] == xs;
  }

  /** Counting one more segment adds one to its extractor and its auditor label and maybe to the agreements. */
  lemma LabelsSnoc(ls: seq<SegmentLabels>, l: SegmentLabels)
    ensures Tally(Wholes(ls + [l])) == Tally(Wholes(ls)).Inc(l.whole)
    ensures Tally(PerScenes(ls + [l])) == Tally(PerScenes(ls)).Inc(l.perScene)
    ensures Agreements(ls + [l]) == Agreements(ls) + if l.whole == l.perScene then 1 else 0
  {
    assert Wholes(ls + [l]) == Wholes(ls) + [l.whole];
    assert PerScenes(ls + [l]) == PerScenes(ls) + [l.perScene];
    assert (ls + [l])[..|ls|] == ls;
    TallySnoc(Wholes(ls), l.whole);
    TallySnoc(PerScenes(ls), l.perScene);
  }

  /** When every segment's labels read as `labels`, that is what `AllLabels` gives. */
  lemma {:induction false} AllLabelsOk(segs: seq<Value>, labels: seq<SegmentLabels>)
    requires |labels| == |segs| && forall k :: 0 <= k < |segs| ==> LabelsOf(segs[k]) == Ok(labels[k])
    ensures AllLabels(segs) == Ok(labels)
  {
    if |segs| > 0 {
      AllLabelsOk(segs[1..], labels[1..]);
      assert [labels[0]] + labels[1..] == labels;
    }
  }

  /** When the labels of segment `k` cannot be read but all before it can, `AllLabels` fails with that error. */
  lemma {:induction false} FirstError(segs: seq<Value>, labels: seq<SegmentLabels>, k: nat)
    requires k < |segs| && |labels| == k && LabelsOf(segs[k]).Err?
    requires forall j :: 0 <= j < k ==> LabelsOf(segs[j]) == Ok(labels[j])
    ensures AllLabels(segs) == Err(LabelsOf(segs[k]).error)
  {
    if k > 0 {
      FirstError(segs[1..], labels[1..], k - 1);
    }
  }

  /**
   * What the report means: the total is the number of segments, agreements
   * and disagreements add up to it, the entries of each tally add up to the
   * total, and each entry counts the segments that carry that label.
   */
  lemma AgreementMeaning(storyData: map<string, Value>, a: Agreement, k: SceneType)
    requires AllLabels(SegmentsOf(storyData)).Ok?
    requires var ls := AllLabels(SegmentsOf(storyData)).value;
      && a.segmentsTotal == |SegmentsOf(storyData)|
      && a.agreements == Agreements(ls) && a.disagreements == |ls| - Agreements(ls)
      && a.byExtractor == Tally(Wholes(ls)) && a.byAuditor == Tally(PerScenes(ls))
    ensures a.agreements + a.disagreements == a.segmentsTotal
    ensures a.byExtractor.Sum() == a.byAuditor.Sum() == a.segmentsTotal
    ensures var ls := AllLabels(SegmentsOf(storyData)).value;
      a.byExtractor.Count(k) == Occurrences(Wholes(ls), k) && a.byAuditor.Count(k) == Occurrences(PerScenes(ls), k)
  {
    var ls := AllLabels(SegmentsOf(storyData)).value;
    TallySumIsLength(Wholes(ls));
    TallySumIsLength(PerScenes(ls));
    TallyCounts(Wholes(ls), k);
    TallyCounts(PerScenes(ls), k);
  }

  /** Missing segments, or segments that are not a list, give an all-zero report. */
  lemma NoSegments(storyData: map<string, Value>)
    requires !("segments" in storyData && storyData["segments"].Arr?)
    ensures AllLabels(SegmentsOf(storyData)) == Ok([])
    ensures Tally(Wholes([])) == Counts(0, 0, 0, 0, 0) && Agreements([]) == 0 && Rate(0, 0) == (0, 1)
  {
  }

  // ---------------------------------------------------------------- annotate_segments_with_semantics

  /** The offsets of a segment are integers (booleans included) with `0 <= s < e <= n`. */
  predicate OffsetsOk(seg: map<string, Value>, n: nat)
  {
    var s := AsInt(GetValue(seg, "start_char"));
    var e := AsInt(GetValue(seg, "end_char"));
    s.Some? && e.Some? && 0 <= s.value < e.value <= n
  }

  /** The `ValueError` raised for a segment with invalid or missing offsets. */
  function OffsetError(seg: map<string, Value>): Exception
  {
    var id := if "segment_id" in seg then ToStr(seg["segment_id"]) else "?";
    Exception(ValueError, "Segment " + id + " has invalid offsets: "
      + ToStr(GetValue(seg, "start_char")) + ", " + ToStr(GetValue(seg, "end_char")))
  }

  /** The text a segment with valid offsets names: `story_text[s:e]`. */
  function SegmentText(storyText: string, seg: map<string, Value>): (t: string)
    requires OffsetsOk(seg, |storyText|)
    ensures |t| == AsInt(GetValue(seg, "end_char")).value - AsInt(GetValue(seg, "start_char")).value > 0
  {
    storyText[AsInt(GetValue(seg, "start_char")).value..AsInt(GetValue(seg, "end_char")).value]
  }

  /**
   * The extractor is a parameter: `extractor(text, model_name=model_name)`
   * returns the judgment dictionary or raises, and the exception is passed on.
   */
  type Extractor = (string, Value) -> Result<map<string, Value>>

  /** A segment the loop gets through: valid offsets, and an extractor call on its text that returns. */
  predicate SegmentOk(storyText: string, seg: map<string, Value>, extractor: Extractor, modelName: Value)
  {
    OffsetsOk(seg, |storyText|) && extractor(SegmentText(storyText, seg), modelName).Ok?
  }

  /** The exception a segment that is not `SegmentOk` raises: the offsets error first, else the extractor's. */
  function SegmentError(storyText: string, seg: map<string, Value>, extractor: Extractor, modelName: Value): Exception
    requires !SegmentOk(storyText, seg, extractor, modelName)
  {
    if !OffsetsOk(seg, |storyText|) then OffsetError(seg)
    else extractor(SegmentText(storyText, seg), modelName).error
  }

  /** A copy of the segment with its text and the extractor's judgment of it. */
  function Annotated(storyText: string, seg: map<string, Value>, judgment: map<string, Value>): map<string, Value>
    requires OffsetsOk(seg, |storyText|)
  {
    seg["segment_text" := Str(SegmentText(storyText, seg))]["segment_eval" := GetValue(judgment, "extracted_output")]
  }

  /**
   * `annotate_segments_with_semantics(story_text, segments, extractor,
   * model_name)`: each segment, in order, is sliced out of the story, judged
   * by the extractor and copied with the text and the judgment added; the
   * first segment with bad offsets raises `ValueError`, and the first
   * exception of the extractor ends the loop.
   */
  method AnnotateSegmentsWithSemantics(storyText: string, segments: seq<map<string, Value>>,
                                       extractor: Extractor, modelName: Value)
    returns (r: Result<seq<map<string, Value>>>)
    ensures r.Ok? <==> forall k :: 0 <= k < |segments| ==> SegmentOk(storyText, segments[k], extractor, modelName)
    ensures r.Ok? ==> (|r.value| == |segments|
      && forall k :: 0 <= k < |segments| ==>
        r.value[k] == Annotated(storyText, segments[k], extractor(SegmentText(storyText, segments[k]), modelName).value))
    ensures r.Err? ==> exists k :: (0 <= k < |segments| && !SegmentOk(storyText, segments[k], extractor, modelName)
      && (forall j :: 0 <= j < k ==> SegmentOk(storyText, segments[j], extractor, modelName))
      && r.error == SegmentError(storyText, segments[k], extractor, modelName))
  {
    var n := |storyText|;
    var out: seq<map<string, Value>> := [];
    for i := 0 to |segments|
      invariant |out| == i
      invariant forall k :: 0 <= k < i ==>
        && SegmentOk(storyText, segments[k], extractor, modelName)
        && out[k] == Annotated(storyText, segments[k], extractor(SegmentText(storyText, segments[k]), modelName).value)
    {
      var seg := segments[i];
      var s := AsInt(GetValue(seg, "start_char"));
      var e := AsInt(GetValue(seg, "end_char"));
      if !(s.Some? && e.Some? && 0 <= s.value < e.value <= n) {
        return Err(OffsetError(seg));
      }
      var text := storyText[s.value..e.value];
      var result := extractor(text, modelName);
      if result.Err? {
        return Err(result.error);
      }
      var segCopy := seg["segment_text" := Str(text)];
      segCopy := segCopy["segment_eval" := GetValue(result.value, "extracted_output")];
      out := out + [segCopy];
    }
    r := Ok(out);
  }

  /**
   * An annotated segment holds exactly the slice its offsets name and the
   * judgment's `extracted_output` (`None` when there is none), and every
   * other field of the segment is kept as it was.
   */
  lemma AnnotatedMeaning(storyText: string, seg: map<string, Value>, judgment: map<string, Value>, key: string)
    requires OffsetsOk(seg, |storyText|)
    ensures var a := Annotated(storyText, seg, judgment);
      var s := AsInt(GetValue(seg, "start_char")).value;
      var e := AsInt(GetValue(seg, "end_char")).value;
      && a.Keys == seg.Keys + {"segment_text", "segment_eval"}
      && a["segment_text"] == Str(storyText[s..e]) && |storyText[s..e]| == e - s > 0
      && a["segment_eval"] == GetValue(judgment, "extracted_output")
      && (key in seg && key != "segment_text" && key != "segment_eval" ==> a[key] == seg[key])
  {
  }
}
