/**
 * The active-alerts page (src/app/alerts/page.tsx): two separately written
 * three-way classifications of an alert by how far its current value
 * exceeds its threshold, and the acknowledge action.
 *
 * Values are modelled as reals. The one place where JavaScript's number
 * semantics change the outcome in an unavoidable way, division by a zero
 * threshold, is written out.
 */
module Alerts {
  import opened Types
  import Api
  import QueryCache

  /** The three severities, from least to most severe. */
  datatype Severity = Low | High | Critical
  {
    function Rank(): nat {
      match this
      case Low => 0
      case High => 1
      case Critical => 2
    }
  }

  /**
   * `getSeverityColor(currentValue, threshold)`: the badge variant from the
   * percentage `currentValue / threshold * 100`. When the threshold is 0
   * the percentage is +Infinity for a positive value (>= 150), -Infinity for
   * a negative one and NaN for 0; NaN and -Infinity compare false, so both
   * fall through to `default`.
   *
   * For a positive threshold the percentage tests amount to comparing the
   * value with 1.5 and 1.2 times the threshold.
   */
  function SeverityColor(currentValue: real, threshold: real): (v: Variant)
    ensures v == Destructive || v == WarningVariant || v == Default
    ensures threshold > 0.0 ==> (v == Destructive <==> currentValue >= threshold * 1.5)
    ensures threshold > 0.0 ==> (v == WarningVariant <==> threshold * 1.2 <= currentValue < threshold * 1.5)
    ensures threshold == 0.0 ==> (v == Destructive <==> currentValue > 0.0)
  {
    if threshold == 0.0 then
      (if currentValue > 0.0 then Destructive else Default)
    else
      PercentageAtLeast(currentValue, threshold, 150.0);
      PercentageAtLeast(currentValue, threshold, 120.0);
      var percentage := (currentValue / threshold) * 100.0;
      if percentage >= 150.0 then Destructive
      else if percentage >= 120.0 then WarningVariant
      else Default
  }

  /**
   * The severity badge's text: 'Critical', 'High' or 'Warning'. For a
   * positive threshold it is the same percentage test as the colour's.
   */
  function SeverityLabel(currentValue: real, threshold: real): (text: string)
    ensures text == "Critical" || text == "High" || text == "Warning"
    ensures threshold > 0.0 ==> (text == "Critical" <==> (currentValue / threshold) * 100.0 >= 150.0)
    ensures threshold > 0.0 ==> (text == "High" <==> 120.0 <= (currentValue / threshold) * 100.0 < 150.0)
  {
    PercentageAtLeast(currentValue, threshold, 150.0);
    PercentageAtLeast(currentValue, threshold, 120.0);
    if currentValue >= threshold * 1.5 then "Critical"
    else if currentValue >= threshold * 1.2 then "High"
    else "Warning"
  }

  /** The severity a label names. */
  function LabelSeverity(text: string): Severity
  {
    if text == "Critical" then Critical else if text == "High" then High else Low
  }

  /** The severity a badge colour names. */
  function ColorSeverity(v: Variant): Severity
  {
    match v
    case Destructive => Critical
    case WarningVariant => High
    case _ => Low
  }

  /** For a positive threshold, a percentage test is the same as multiplying out. */
  lemma PercentageAtLeast(currentValue: real, threshold: real, bound: real)
    ensures threshold > 0.0 ==> ((currentValue / threshold) * 100.0 >= bound <==> currentValue * 100.0 >= bound * threshold)
  {
    if threshold > 0.0 {
      var q := currentValue / threshold;
      assert q * threshold == currentValue;
      if q * 100.0 >= bound {
        assert q * 100.0 * threshold >= bound * threshold;
      } else {
        assert q * 100.0 * threshold < bound * threshold;
      }
    }
  }

  /**
   * For a positive threshold the colour and the label always agree:
   * destructive with Critical, warning with High, default with Warning.
   */
  lemma ColorAgreesWithLabel(currentValue: real, threshold: real)
    requires threshold > 0.0
    ensures SeverityColor(currentValue, threshold) == Destructive <==> SeverityLabel(currentValue, threshold) == "Critical"
    ensures SeverityColor(currentValue, threshold) == WarningVariant <==> SeverityLabel(currentValue, threshold) == "High"
    ensures SeverityColor(currentValue, threshold) == Default <==> SeverityLabel(currentValue, threshold) == "Warning"
    ensures ColorSeverity(SeverityColor(currentValue, threshold)) == LabelSeverity(SeverityLabel(currentValue, threshold))
  {
  }

  /** With a fixed positive threshold, a larger value never gets a lower label. */
  lemma LabelMonotonic(v1: real, v2: real, threshold: real)
    requires threshold > 0.0 && v1 <= v2
    ensures LabelSeverity(SeverityLabel(v1, threshold)).Rank() <= LabelSeverity(SeverityLabel(v2, threshold)).Rank()
  {
  }

  /** With a fixed positive threshold, a larger value never gets a lower colour. */
  lemma ColorMonotonic(v1: real, v2: real, threshold: real)
    requires threshold > 0.0 && v1 <= v2
    ensures ColorSeverity(SeverityColor(v1, threshold)).Rank() <= ColorSeverity(SeverityColor(v2, threshold)).Rank()
  {
    ColorAgreesWithLabel(v1, threshold);
    ColorAgreesWithLabel(v2, threshold);
    LabelMonotonic(v1, v2, threshold);
  }

  /** The boundaries: exactly at the threshold, at 120 % and at 150 % of it. */
  lemma Boundaries(threshold: real)
    requires threshold > 0.0
    ensures SeverityLabel(threshold, threshold) == "Warning" && SeverityColor(threshold, threshold) == Default
    ensures SeverityLabel(threshold * 1.2, threshold) == "High" && SeverityColor(threshold * 1.2, threshold) == WarningVariant
    ensures SeverityLabel(threshold * 1.5, threshold) == "Critical" && SeverityColor(threshold * 1.5, threshold) == Destructive
  {
    ColorAgreesWithLabel(threshold, threshold);
    ColorAgreesWithLabel(threshold * 1.2, threshold);
    ColorAgreesWithLabel(threshold * 1.5, threshold);
  }

  /** A threshold of 100: 200 is Critical, 130 High, 105 Warning. */
  lemma HundredExamples()
    ensures SeverityLabel(200.0, 100.0) == "Critical" && SeverityColor(200.0, 100.0) == Destructive
    ensures SeverityLabel(130.0, 100.0) == "High" && SeverityColor(130.0, 100.0) == WarningVariant
    ensures SeverityLabel(105.0, 100.0) == "Warning" && SeverityColor(105.0, 100.0) == Default
  {
  }

  /**
   * After an acknowledgement the threshold is 0, and there the two
   * classifications part: a value of 0 is labelled Critical but coloured
   * default, because 0/0 is NaN.
   */
  lemma ZeroThresholdDisagrees()
    ensures SeverityLabel(0.0, 0.0) == "Critical"
    ensures SeverityColor(0.0, 0.0) == Default
  {
  }

  /** With a negative threshold the percentage test is flipped and the two disagree. */
  lemma NegativeThresholdDisagrees()
    ensures SeverityLabel(-200.0, -100.0) == "Warning"
    ensures SeverityColor(-200.0, -100.0) == Destructive
  {
  }

  // ---------------------------------------------------------------------
  // Acknowledge

  /** `c.toLowerCase()` on the ASCII letters: a capital becomes its small letter, anything else is kept. */
  function LowerChar(c: char): (r: char)
    ensures 'A' <= c <= 'Z' ==> 'a' <= r <= 'z' && UpperChar(r) == c
    ensures !('A' <= c <= 'Z') ==> r == c
  {
    if 'A' <= c <= 'Z' then (c as int + 32) as char else c
  }

  /** `s.toLowerCase()`, mapping the ASCII letters. */
  function ToLower(s: string): (r: string)
    ensures |r| == |s|
    ensures forall i :: 0 <= i < |s| ==> r[i] == LowerChar(s[i])
  {
    if s == [] then [] else [LowerChar(s[0])] + ToLower(s[1..])
  }

  /** The upper-case form of a lower-case ASCII letter. */
  function UpperChar(c: char): char
  {
    if 'a' <= c <= 'z' then (c as int - 32) as char else c
  }

  /**
   * Case-insensitive equality with a word of lower-case letters: each
   * character is that letter or its capital.
   */
  predicate EqualsIgnoringCase(s: string, word: string)
  {
    |s| == |word| && forall i :: 0 <= i < |s| ==> s[i] == word[i] || s[i] == UpperChar(word[i])
  }

  /** Lower-casing and comparing is comparing ignoring case, for a word of lower-case letters. */
  lemma ToLowerEqualsIff(s: string, word: string)
    requires forall i :: 0 <= i < |word| ==> 'a' <= word[i] <= 'z'
    ensures ToLower(s) == word <==> EqualsIgnoringCase(s, word)
  {
    if ToLower(s) == word {
      forall i | 0 <= i < |s| ensures s[i] == word[i] || s[i] == UpperChar(word[i]) {
        assert LowerChar(s[i]) == word[i];
      }
    }
    if EqualsIgnoringCase(s, word) {
      assert forall i :: 0 <= i < |s| ==> ToLower(s)[i] == word[i];
    }
  }

  /**
   * The request `mutationFn` makes for an acknowledgement: a threshold of 0
   * for the alert's metric, when that metric is CPU or memory; none otherwise.
   */
  function AcknowledgeRequest(ip: string, metric: string): (r: Option<Api.Request>)
    ensures r.Some? ==> r.value == Api.UpdateCpuThreshold(ip, 0.0) || r.value == Api.UpdateMemoryThreshold(ip, 0.0)
  {
    if ToLower(metric) == "cpu" then Some(Api.UpdateCpuThreshold(ip, 0.0))
    else if ToLower(metric) == "memory" then Some(Api.UpdateMemoryThreshold(ip, 0.0))
    else None
  }

  /** A row's Acknowledge button: the request for the alert's device and metric. */
  function AcknowledgeAlert(a: Alert): (r: Option<Api.Request>)
    ensures r.Some? ==> (r.value.UpdateCpuThreshold? || r.value.UpdateMemoryThreshold?) && r.value.ip == a.device_ip && r.value.threshold == 0.0
    ensures r.None? <==> !EqualsIgnoringCase(a.metric, "cpu") && !EqualsIgnoringCase(a.metric, "memory")
  {
    AcknowledgeDispatch(a.device_ip, a.metric);
    AcknowledgeRequest(a.device_ip, a.metric)
  }

  /** A row's severity cell: the badge variant and the badge text. */
  function SeverityBadge(a: Alert): (badge: (Variant, string))
    ensures a.threshold > 0.0 ==> ColorSeverity(badge.0) == LabelSeverity(badge.1)
  {
    (SeverityColor(a.current_value, a.threshold), SeverityLabel(a.current_value, a.threshold))
  }

  /**
   * Acknowledge sends a CPU threshold of 0 exactly for a metric spelled
   * "cpu" in any case, a memory threshold of 0 exactly for "memory" in any
   * case, and nothing for any other metric.
   */
  lemma AcknowledgeDispatch(ip: string, metric: string)
    ensures AcknowledgeRequest(ip, metric) == Some(Api.UpdateCpuThreshold(ip, 0.0)) <==> EqualsIgnoringCase(metric, "cpu")
    ensures AcknowledgeRequest(ip, metric) == Some(Api.UpdateMemoryThreshold(ip, 0.0)) <==> EqualsIgnoringCase(metric, "memory")
    ensures AcknowledgeRequest(ip, metric) == None <==> !EqualsIgnoringCase(metric, "cpu") && !EqualsIgnoringCase(metric, "memory")
  {
    ToLowerEqualsIff(metric, "cpu");
    ToLowerEqualsIff(metric, "memory");
  }

  /** Some concrete spellings. */
  lemma AcknowledgeExamples(ip: string)
    ensures AcknowledgeRequest(ip, "CPU") == Some(Api.UpdateCpuThreshold(ip, 0.0))
    ensures AcknowledgeRequest(ip, "Memory") == Some(Api.UpdateMemoryThreshold(ip, 0.0))
    ensures AcknowledgeRequest(ip, "cpu_load") == None
  {
    assert ToLower("CPU") == "cpu";
    assert ToLower("Memory") == "memory";
    assert |ToLower("cpu_load")| == 8;
  }

  /** The acknowledge mutation's `onSuccess`: the active-alerts list becomes stale. */
  function AcknowledgeSucceeded(stale: set<QueryCache.QueryKey>): (r: set<QueryCache.QueryKey>)
    ensures QueryCache.ActiveAlerts in r
    ensures r - stale <= {QueryCache.ActiveAlerts} && stale <= r
  {
    QueryCache.Invalidate(stale, QueryCache.ActiveAlerts)
  }
}
