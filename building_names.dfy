/**
 * `extract_building_name`: the building part of a free-text address (the
 * text before the first comma, or else the leading run of non-digits),
 * mapped to one of ten canonical campus building names when a branch of
 * the normalisation chain recognises it, and returned as extracted
 * otherwise.
 */
module BuildingNames {
  import opened Common
  import opened Strings

  /** The names the chain returns, in the order its branches are tried. */
  const CANONICAL: seq<string> := [
    "Wells Library",
    "Kelley School of Business",
    "Indiana Memorial Union (IMU)",
    "Luddy Hall",
    "Wright Education Building",
    "Jacobs School of Music",
    "Multidisciplinary Science Building II",
    "Chemistry Building",
    "Student Center",
    "Student Recreational Sports Center"]

  const BRANCHES := 10

  // ---------------------------------------------------------------- candidate

  /** `re.match(r'^([^\d]+)', s).group(1)`, or "" when the match fails: the longest prefix without a digit. */
  function LeadingNonDigits(s: string): (r: string)
    ensures |r| <= |s| && r == s[..|r|]
    ensures forall i :: 0 <= i < |r| ==> !IsDigit(r[i])
    ensures |r| < |s| ==> IsDigit(s[|r|])
    decreases |s|
  {
    if |s| == 0 || IsDigit(s[0]) then "" else [s[0]] + LeadingNonDigits(s[1..])
  }

  /** The text the chain normalises: the first comma-separated part, else the non-digit prefix, stripped. */
  function Candidate(address: string): string
    requires address != ""
  {
    if ',' in address then Strip(Split(address, ',')[0])
    else
      var run := LeadingNonDigits(address);
      if run != "" then Strip(run) else Strip(address)
  }

  /** With a comma, the candidate is the stripped text before the first one, whatever follows. */
  lemma CommaCandidate(part: string, rest: string)
    requires ',' !in part
    ensures Candidate(part + "," + rest) == Strip(part)
  {
    var a := part + "," + rest;
    assert a == part + [','] + rest;
    assert a[|part|] == ',';
    SplitAfterPart(part, rest, ',');
  }

  /** Without a comma, the candidate is the stripped run of non-digits the address starts with. */
  lemma RunCandidate(run: string, rest: string)
    requires run != "" && forall i :: 0 <= i < |run| ==> !IsDigit(run[i])
    requires rest == "" || IsDigit(rest[0])
    requires ',' !in run + rest
    ensures Candidate(run + rest) == Strip(run)
  {
    RunIsLongestPrefix(run, rest);
  }

  lemma {:induction false} RunIsLongestPrefix(run: string, rest: string)
    requires forall i :: 0 <= i < |run| ==> !IsDigit(run[i])
    requires rest == "" || IsDigit(rest[0])
    ensures LeadingNonDigits(run + rest) == run
    decreases |run|
  {
    if |run| > 0 {
      assert (run + rest)[1..] == run[1..] + rest;
      RunIsLongestPrefix(run[1..], rest);
    } else {
      assert run + rest == rest;
    }
  }

  /** An address that starts with a digit and has no comma is used whole, stripped. */
  lemma DigitFirstCandidate(address: string)
    requires address != "" && IsDigit(address[0]) && ',' !in address
    ensures Candidate(address) == Strip(address)
  {
  }

  // ---------------------------------------------------------------- normalisation

  /** Whether branch `k` of the chain accepts the lower-cased candidate `l`. */
  predicate Matches(k: nat, l: string) {
    if k == 0 then Contains(l, "herman b wells library") || l == "wells library"
    else if k == 1 then Contains(l, "kelley school of business")
    else if k == 2 then Contains(l, "indiana memorial union") || l == "imu"
    else if k == 3 then Contains(l, "luddy hall")
    else if k == 4 then Contains(l, "wright education")
    else if k == 5 then Contains(l, "jacobs school of music")
    else if k == 6 then Contains(l, "multidisciplinary science building") || Contains(l, "msb")
    else if k == 7 then Contains(l, "chemistry building")
    else if k == 8 then Contains(l, "student center")
    else if k == 9 then Contains(l, "student recreational sports center") || Contains(l, "srsc")
    else false
  }

  /** The first branch from `k` on that accepts `l`, or `BRANCHES` when none does. */
  function FirstBranch(l: string, k: nat): (b: nat)
    requires k <= BRANCHES
    ensures k <= b <= BRANCHES
    ensures b < BRANCHES ==> Matches(b, l)
    ensures forall j :: k <= j < b ==> !Matches(j, l)
    decreases BRANCHES - k
  {
    if k == BRANCHES then BRANCHES
    else if Matches(k, l) then k
    else FirstBranch(l, k + 1)
  }

  /** The if/elif chain: the name of the first branch that recognises the candidate, in any case. */
  function Normalize(building: string): (r: string)
    ensures r == building || r in CANONICAL
  {
    var b := FirstBranch(Lower(building), 0);
    if b < BRANCHES then CANONICAL[b] else building
  }

  /** `extract_building_name`: nothing for a missing or empty address. */
  function ExtractBuildingName(address: Option<string>): (r: Option<string>)
    ensures r.None? <==> address.None? || address.value == ""
  {
    if address.None? || address.value == "" then None
    else Some(Normalize(Candidate(address.value)))
  }

  /**
   * The first matching branch wins: the answer is the name of branch `k`
   * exactly when branch `k` accepts and no earlier branch does, and the
   * candidate comes back unchanged when no branch accepts.
   */
  lemma FirstMatchWins(building: string, k: nat)
    requires k < BRANCHES
    requires Matches(k, Lower(building))
    requires forall j :: 0 <= j < k ==> !Matches(j, Lower(building))
    ensures Normalize(building) == CANONICAL[k]
  {
    FirstBranchIs(Lower(building), 0, k);
  }

  lemma {:induction false} FirstBranchIs(l: string, from: nat, k: nat)
    requires from <= k < BRANCHES
    requires Matches(k, l)
    requires forall j :: from <= j < k ==> !Matches(j, l)
    ensures FirstBranch(l, from) == k
    decreases k - from
  {
    if from < k {
      FirstBranchIs(l, from + 1, k);
    }
  }

  lemma NoMatchUnchanged(building: string)
    requires forall j :: 0 <= j < BRANCHES ==> !Matches(j, Lower(building))
    ensures Normalize(building) == building
  {
  }

  /** Only the letters' case is looked at: two spellings differing in case normalise alike or both stay as written. */
  lemma NormalizeIgnoresCase(a: string, b: string)
    requires Lower(a) == Lower(b)
    ensures Normalize(a) == Normalize(b) || (Normalize(a) == a && Normalize(b) == b)
  {
  }

  /** `msb` anywhere in the candidate is recognised: the answer is one of the first seven names. */
  lemma MsbAnywhere(building: string)
    requires Contains(Lower(building), "msb")
    ensures Normalize(building) in CANONICAL[..7]
  {
    var b := FirstBranch(Lower(building), 0);
    assert Normalize(building) == CANONICAL[b];
  }

  /** `imu` is recognised only as the whole candidate, in any case. */
  lemma ImuAlone(building: string)
    requires Lower(building) == "imu"
    ensures Normalize(building) == "Indiana Memorial Union (IMU)"
  {
    ShorterNotContained("imu", "herman b wells library");
    ShorterNotContained("imu", "kelley school of business");
    assert Matches(2, Lower(building));
    FirstMatchWins(building, 2);
  }

  // ---------------------------------------------------------------- the sample addresses

  /** No branch before `k` accepts `l`. */
  predicate NoEarlierMatch(l: string, k: nat) {
    k == 0 || (!Matches(k - 1, l) && NoEarlierMatch(l, k - 1))
  }

  lemma {:induction false} NoEarlierMatchAll(l: string, k: nat)
    requires NoEarlierMatch(l, k)
    ensures forall j :: 0 <= j < k ==> !Matches(j, l)
    decreases k
  {
    if k > 0 {
      NoEarlierMatchAll(l, k - 1);
    }
  }

  /**
   * An address whose building part, before the first comma, is already
   * stripped and is accepted first by branch `k` gives the name of branch `k`.
   */
  lemma SampleNormalizes(part: string, rest: string, l: string, k: nat)
    requires ',' !in part && Strip(part) == part
    requires Lower(part) == l && k < BRANCHES && Matches(k, l) && NoEarlierMatch(l, k)
    ensures ExtractBuildingName(Some(part + "," + rest)) == Some(CANONICAL[k])
  {
    CommaCandidate(part, rest);
    NoEarlierMatchAll(l, k);
    FirstMatchWins(part, k);
  }

  /** The first sample: the branch recognises the library's full name. */
  lemma HermanWellsSample(rest: string)
    ensures ExtractBuildingName(Some("Herman B Wells Library" + "," + rest)) == Some("Wells Library")
  {
    HermanLower();
    HermanStrip();
    HermanNoComma();
    HermanMatches();
    assert NoEarlierMatch("herman b wells library", 0);
    SampleNormalizes("Herman B Wells Library", rest, "herman b wells library", 0);
    assert CANONICAL[0] == "Wells Library";
  }

  lemma HermanLower()
    ensures Lower("Herman B Wells Library") == "herman b wells library"
  {
  }

  lemma HermanNoComma()
    ensures ',' !in "Herman B Wells Library"
  {
  }

  lemma HermanStrip()
    ensures Strip("Herman B Wells Library") == "Herman B Wells Library"
  {
    StripNoSpaceEnds("Herman B Wells Library");
  }

  lemma HermanMatches()
    ensures Matches(0, "herman b wells library")
  {
    ContainsSelf("herman b wells library");
  }

  /** The second sample: the short name is recognised as a whole. */
  lemma WellsSample(rest: string)
    ensures ExtractBuildingName(Some("Wells Library" + "," + rest)) == Some("Wells Library")
  {
    WellsLower();
    WellsStrip();
    WellsNoComma();
    assert Matches(0, "wells library");
    assert NoEarlierMatch("wells library", 0);
    SampleNormalizes("Wells Library", rest, "wells library", 0);
    assert CANONICAL[0] == "Wells Library";
  }

  lemma WellsLower()
    ensures Lower("Wells Library") == "wells library"
  {
  }

  lemma WellsNoComma()
    ensures ',' !in "Wells Library"
  {
  }

  lemma WellsStrip()
    ensures Strip("Wells Library") == "Wells Library"
  {
    StripNoSpaceEnds("Wells Library");
  }
}
