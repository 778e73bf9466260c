/**
  Names of StatefulSets and of the claims Kubernetes derives from them:
  <volume>-<statefulset>-<ordinal>. Ownership of a claim is decided by taking its
  name apart, so the parsers must agree with each other and with the rendering.
 */
module PvcNames {
  import opened Text

  function StatefulSetName(cluster: string, rack: nat): string { cluster + "-" + Itoa(rack) }

  function Pattern(sts: string): string { "-" + sts + "-" }

  function PvcName(volume: string, sts: string, ordinal: nat): string { volume + Pattern(sts) + Itoa(ordinal) }

  /** Where the trailing run of digits starts. */
  function DigitsFrom(s: string, end: nat): (r: nat)
    requires end <= |s|
    ensures r <= end && AllDigits(s[r..end])
    ensures r > 0 ==> !IsDigit(s[r-1])
  {
    if end > 0 && IsDigit(s[end-1]) then
      var r := DigitsFrom(s, end - 1);
      assert s[r..end] == s[r..end-1] + [s[end-1]];
      r
    else end
  }

  ghost predicate EndsWith(s: string, suffix: string) {
    |suffix| <= |s| && s[|s|-|suffix|..] == suffix
  }

  ghost function OrdinalAfter(name: string, pat: string): Option<int> {
    var d := DigitsFrom(name, |name|);
    if d == 0 || d == |name| || !EndsWith(name[..d], pat) then None
    else ParseInt(name[d..], INT32_MAX)
  }

  function VolumeBefore(name: string, pat: string): Option<string> {
    var i := LastIndex(name, pat);
    if i <= 0 then None
    else
      var suffix := name[i+|pat|..];
      if suffix == "" || ParseInt(suffix, INT32_MAX).None? then None else Some(name[..i])
  }

  ghost function OrdinalOf(name: string, sts: string): Option<int> { OrdinalAfter(name, Pattern(sts)) }

  function VolumeOf(name: string, sts: string): Option<string> { VolumeBefore(name, Pattern(sts)) }

  method ExtractOrdinal(name: string, sts: string) returns (r: Option<int>)
    ensures r == OrdinalOf(name, sts)
  {
    var pattern := Pattern(sts);
    var idx := |name| - 1;
    while idx >= 0 && '0' <= name[idx] <= '9'
      invariant -1 <= idx < |name|
      invariant DigitsFrom(name, |name|) == DigitsFrom(name, idx + 1)
    {
      idx := idx - 1;
    }
    if idx < 0 || idx == |name| - 1 {
      return None;
    }
    var prefix := name[..idx+1];
    if |prefix| < |pattern| {
      return None;
    }
    if prefix[|prefix|-|pattern|..] != pattern {
      return None;
    }
    return ParseInt(name[idx+1..], INT32_MAX);
  }

  // ---- What the parsers mean ------------------------------------------------------------

  lemma {:induction false} DigitsFromUnique(s: string, end: nat, d: nat)
    requires d <= end <= |s| && AllDigits(s[d..end]) && (d > 0 ==> !IsDigit(s[d-1]))
    ensures DigitsFrom(s, end) == d
  {
    if d < end {
      assert s[end-1] == s[d..end][end-1-d];
      assert s[d..end-1] == s[d..end][..end-1-d];
      DigitsFromUnique(s, end - 1, d);
    }
  }

  /** The name is v, the pattern and digits, with nothing in between. */
  ghost predicate Splits(name: string, pat: string, v: string, digits: string) {
    name == v + pat + digits && digits != "" && AllDigits(digits)
  }

  predicate DashEnded(pat: string) { pat != "" && pat[|pat|-1] == '-' }

  lemma SuffixCut(s: string, suffix: string)
    requires EndsWith(s, suffix)
    ensures s == s[..|s|-|suffix|] + suffix
  {
  }

  lemma LastIndexAtSplit(name: string, pat: string, v: string, digits: string)
    requires Splits(name, pat, v, digits) && DashEnded(pat)
    ensures LastIndex(name, pat) == |v|
  {
    assert OccursAt(name, pat, |v|);
    var i := LastIndex(name, pat);
    var last := i + |pat| - 1;
    assert name[last] == name[i..i+|pat|][|pat|-1] == '-';
    assert forall j :: |v| + |pat| <= j < |name| ==> name[j] == digits[j-|v|-|pat|];
  }

  lemma SplitPosition(name: string, pat: string, v: string, digits: string)
    requires Splits(name, pat, v, digits) && DashEnded(pat)
    ensures DigitsFrom(name, |name|) == |v| + |pat|
    ensures name[|v| + |pat|..] == digits && name[..|v|] == v && EndsWith(name[..|v| + |pat|], pat)
  {
    var d := |v| + |pat|;
    assert name[d..] == digits;
    assert name[d-1] == '-';
    DigitsFromUnique(name, |name|, d);
    assert name[..d] == v + pat;
  }

  lemma SplitReads(name: string, pat: string, v: string, digits: string)
    requires Splits(name, pat, v, digits) && DashEnded(pat)
    ensures OrdinalAfter(name, pat) == if DigitsValue(digits) <= INT32_MAX then Some(DigitsValue(digits)) else None
    ensures VolumeBefore(name, pat) == if v != "" && DigitsValue(digits) <= INT32_MAX then Some(v) else None
  {
    SplitPosition(name, pat, v, digits);
    LastIndexAtSplit(name, pat, v, digits);
    ParseDigits(digits, INT32_MAX);
  }

  /** What stands before the digits of a claim that is attributed to a pattern ends in it. */
  lemma OrdinalEnds(name: string, pat: string) returns (head: string)
    requires OrdinalAfter(name, pat).Some?
    ensures head == name[..DigitsFrom(name, |name|)] && EndsWith(head, pat)
    ensures name[|head|..] != "" && AllDigits(name[|head|..])
  {
    var d := DigitsFrom(name, |name|);
    head := name[..d];
    assert name[d..|name|] == name[d..];
  }

  lemma HeadAndRest(name: string, pat: string, n: nat)
    requires n <= |name| && EndsWith(name[..n], pat)
    ensures name == name[..n][..n-|pat|] + pat + name[n..]
  {
    SuffixCut(name[..n], pat);
    assert name == name[..n] + name[n..];
  }

  lemma ReadSplits(name: string, pat: string) returns (v: string, digits: string)
    requires OrdinalAfter(name, pat).Some?
    ensures Splits(name, pat, v, digits)
  {
    var head := OrdinalEnds(name, pat);
    HeadAndRest(name, pat, |head|);
    v, digits := head[..|head|-|pat|], name[|head|..];
  }

  /**
    An ordinal is read exactly from the names that end in the pattern and an
    unsigned 32-bit decimal, whatever stands in front.
   */
  lemma OrdinalExactly(name: string, sts: string, k: int)
    ensures OrdinalOf(name, sts) == Some(k) <==>
            exists v, digits :: Splits(name, Pattern(sts), v, digits) && DigitsValue(digits) == k && k <= INT32_MAX
  {
    if OrdinalOf(name, sts) == Some(k) {
      var v, digits := ReadSplits(name, Pattern(sts));
      SplitReads(name, Pattern(sts), v, digits);
    }
    if v, digits :| Splits(name, Pattern(sts), v, digits) && DigitsValue(digits) == k && k <= INT32_MAX {
      SplitReads(name, Pattern(sts), v, digits);
    }
  }

  /** Whenever an ordinal is read, both parsers cut at the same place; only an empty volume name is refused. */
  lemma SamePlace(name: string, sts: string)
    requires OrdinalOf(name, sts).Some?
    ensures exists v, digits :: Splits(name, Pattern(sts), v, digits)
                                && DigitsValue(digits) == OrdinalOf(name, sts).value
                                && VolumeOf(name, sts) == if v == "" then None else Some(v)
  {
    var v, digits := ReadSplits(name, Pattern(sts));
    SplitReads(name, Pattern(sts), v, digits);
  }

  /** The parsers invert the rendering for every nonempty volume and every 32-bit ordinal. */
  lemma RoundTrip(volume: string, sts: string, ordinal: nat)
    requires volume != "" && ordinal <= INT32_MAX
    ensures OrdinalOf(PvcName(volume, sts, ordinal), sts) == Some(ordinal)
    ensures VolumeOf(PvcName(volume, sts, ordinal), sts) == Some(volume)
  {
    assert Splits(PvcName(volume, sts, ordinal), Pattern(sts), volume, Itoa(ordinal));
    SplitReads(PvcName(volume, sts, ordinal), Pattern(sts), volume, Itoa(ordinal));
  }

  /** Of a claim whose volume is read, the ordinal is read too exactly when no sign stands in front of it. */
  lemma VolumeWithoutOrdinal(name: string, sts: string)
    requires VolumeOf(name, sts).Some?
    ensures var suffix := name[LastIndex(name, Pattern(sts)) + |Pattern(sts)|..];
            && suffix != ""
            && (OrdinalOf(name, sts).Some? <==> AllDigits(suffix))
            && (OrdinalOf(name, sts).None? <==> suffix[0] in {'-', '+'})
  {
    var pat := Pattern(sts);
    var i := LastIndex(name, pat);
    var suffix := name[i + |pat|..];
    SignOrDigit(suffix, INT32_MAX);
    if AllDigits(suffix) { UnsignedSuffix(name, pat); }
    if OrdinalOf(name, sts).Some? { OrdinalSuffix(name, pat); }
  }

  lemma SignOrDigit(s: string, max: nat)
    requires ParseInt(s, max).Some?
    ensures s != "" && (AllDigits(s) <==> s[0] !in {'-', '+'})
  {
    assert AllDigits(s) ==> IsDigit(s[0]);
  }

  lemma UnsignedSuffix(name: string, pat: string)
    requires DashEnded(pat) && VolumeBefore(name, pat).Some? && AllDigits(name[LastIndex(name, pat) + |pat|..])
    ensures OrdinalAfter(name, pat).Some?
  {
    var i := LastIndex(name, pat);
    assert name == name[..i] + name[i..i+|pat|] + name[i+|pat|..];
    SplitReads(name, pat, name[..i], name[i+|pat|..]);
  }

  lemma OrdinalSuffix(name: string, pat: string)
    requires DashEnded(pat) && OrdinalAfter(name, pat).Some?
    ensures LastIndex(name, pat) >= 0 && AllDigits(name[LastIndex(name, pat) + |pat|..])
  {
    var v, digits := ReadSplits(name, pat);
    LastIndexAtSplit(name, pat, v, digits);
    assert name[|v| + |pat|..] == digits;
  }

  /** A sign is accepted by one parser only, so a volume alone does not make a claim a member. */
  lemma SignedSuffixDisagrees()
    ensures VolumeOf("data-db-0--5", "db-0") == Some("data") && OrdinalOf("data-db-0--5", "db-0") == None
  {
    assert Pattern("db-0") == "-db-0-";
    SignedVolume("data-db-0--5", "-db-0-");
    SignedOrdinal("data-db-0--5", "-db-0-");
  }

  lemma SignedVolume(name: string, pat: string)
    requires name == "data-db-0--5" && pat == "-db-0-"
    ensures VolumeBefore(name, pat) == Some("data")
  {
    assert name[4..10] == pat && name[10..] == "-5" && name[..4] == "data";
    assert name[5..11] == "db-0--" && name[6..12] == "b-0--5";
    assert LastIndexFrom(name, pat, 4) == 4;
    assert LastIndexFrom(name, pat, 5) == 4;
    assert LastIndexFrom(name, pat, 6) == 4;
    assert "-5"[1..] == "5" && AllDigits("5");
    assert "5"[..0] == "" && DigitsValue("5") == 5;
  }

  lemma SignedOrdinal(name: string, pat: string)
    requires name == "data-db-0--5" && pat == "-db-0-"
    ensures OrdinalAfter(name, pat) == None
  {
    DigitsFromUnique(name, 12, 11);
    assert name[..11] == "data-db-0--" && name[..11][5..] == "db-0--";
  }

  /** The digit run before a final dash. */
  lemma DashedNumber(head: string, n: string)
    requires n != "" && AllDigits(n)
    ensures var s := head + "-" + n + "-"; s[DigitsFrom(s, |s|-1)..|s|-1] == n
  {
    var s := head + "-" + n + "-";
    var d := |head| + 1;
    assert s[d..|s|-1] == n;
    DigitsFromUnique(s, |s|-1, d);
  }

  lemma Regroup(x: string, cluster: string, n: string)
    ensures x + ("-" + (cluster + "-" + n) + "-") == (x + "-" + cluster) + "-" + n + "-"
  {
  }

  lemma RackNumber(s: string, cluster: string, rack: nat)
    requires EndsWith(s, Pattern(StatefulSetName(cluster, rack)))
    ensures |s| > 0 && s[DigitsFrom(s, |s|-1)..|s|-1] == Itoa(rack)
  {
    var pat := Pattern(StatefulSetName(cluster, rack));
    SuffixCut(s, pat);
    var x := s[..|s|-|pat|];
    Regroup(x, cluster, Itoa(rack));
    DashedNumber(x + "-" + cluster, Itoa(rack));
  }

  /** Within one cluster no claim name is attributed to two racks. */
  lemma OneRackPerClaim(name: string, cluster: string, a: nat, b: nat)
    requires OrdinalOf(name, StatefulSetName(cluster, a)).Some?
    requires OrdinalOf(name, StatefulSetName(cluster, b)).Some?
    ensures a == b
  {
    var head := OrdinalEnds(name, Pattern(StatefulSetName(cluster, a)));
    var again := OrdinalEnds(name, Pattern(StatefulSetName(cluster, b)));
    RackNumber(head, cluster, a);
    RackNumber(head, cluster, b);
    ItoaInjective(a, b);
  }
}
