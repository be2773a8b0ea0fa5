/** The two validators of a design review. */
module ReviewValidators {
  /*
   The two validators of a design review, the browser's and the host's, decide the same set of typed
   reviews, and so do their two rules for lists of materials. Strings are their UTF-8 bytes.
  */

  import opened Options
  import opened Bytes
  import opened Sorting
  import opened Identifiers

  // ------------------------------------------------------------ sorted lists without repetition

  /** Negative, zero or positive as `left` comes before, is, or comes after `right`. */
  method CompareUtf8(left: Text, right: Text) returns (order: int)
    ensures order < 0 <==> Less(left, right)
    ensures order == 0 <==> left == right
    ensures order > 0 <==> Less(right, left)
  {
    LessIsTotal(left, right);
    var length := if |left| < |right| then |left| else |right|;
    for i := 0 to length
      invariant left[..i] == right[..i]
    {
      if left[i] != right[i] {
        if left[i] < right[i] {
          LessAtFirstDifference(left, right, i);
        } else {
          LessAtFirstDifference(right, left, i);
        }
        var l: int, r: int := left[i], right[i];
        return l - r;
      }
    }
    assert left[..length] == right[..length];
    assert |left| == length ==> left[..length] == left;
    assert |right| == length ==> right[..length] == right;
    if |left| < |right| {
      LessAtFirstDifference(left, right, length);
    } else if |right| < |left| {
      LessAtFirstDifference(right, left, length);
    }
    return |left| - |right|;
  }

  const BY_TEXT: (Text, Text) -> bool := By((t: Text) => t)

  function Members(values: seq<Text>): set<Text> {
    set x | x in values
  }

  /** The browser's rule: as many different values as values, and the sorted copy is the list itself. */
  predicate BrowserSorted(values: seq<Text>) {
    |Members(values)| == |values| && values == Sort(values, BY_TEXT)
  }

  /** The host's rule: each value is less than the next. */
  predicate HostSorted(values: seq<Text>) {
    forall i | 0 <= i < |values| - 1 :: Less(values[i], values[i + 1])
  }

  lemma ByTextIsTotal()
    ensures TotalOrder(BY_TEXT) && Asymmetric(BY_TEXT)
  {
    ByIsWeakOrder((t: Text) => t);
    forall a: Text, b: Text
      ensures a == b || BY_TEXT(a, b) || BY_TEXT(b, a)
    {
      LessIsTotal(a, b);
    }
  }

  lemma {:induction false} MembersCount(values: seq<Text>)
    ensures |Members(values)| <= |values|
    ensures |Members(values)| == |values| <==> Distinct(values)
  {
    if values != [] {
      var n := |values| - 1;
      var before, last := values[..n], values[n];
      assert values == before + [last];
      MembersCount(before);
      DistinctAppend(before, last);
      assert Members(values) == Members(before) + {last};
    }
  }

  lemma {:induction false} AdjacentIsStrict(values: seq<Text>)
    ensures HostSorted(values) <==> StrictlyOrdered(values, BY_TEXT)
  {
    if HostSorted(values) && values != [] {
      var n := |values| - 1;
      assert HostSorted(values[..n]) by {
        forall i | 0 <= i < n - 1
          ensures Less(values[..n][i], values[..n][i + 1])
        {
          assert Less(values[i], values[i + 1]);
        }
      }
      AdjacentIsStrict(values[..n]);
      forall i, j | 0 <= i < j < |values|
        ensures BY_TEXT(values[i], values[j])
      {
        if j < n {
          assert BY_TEXT(values[..n][i], values[..n][j]);
        } else {
          assert Less(values[n - 1], values[n]);
          if i < n - 1 {
            assert BY_TEXT(values[..n][i], values[..n][n - 1]);
            LessIsTransitive(values[i], values[n - 1], values[n]);
          }
        }
      }
    }
    if StrictlyOrdered(values, BY_TEXT) {
      forall i | 0 <= i < |values| - 1
        ensures Less(values[i], values[i + 1])
      {
        assert BY_TEXT(values[i], values[i + 1]);
      }
    }
  }

  lemma StrictIsDistinctAndOrdered(values: seq<Text>)
    ensures StrictlyOrdered(values, BY_TEXT) <==> Distinct(values) && Ordered(values, BY_TEXT)
  {
    forall i, j | 0 <= i < j < |values|
      ensures BY_TEXT(values[i], values[j]) <==> values[i] != values[j] && !BY_TEXT(values[j], values[i])
    {
      LessIsTotal(values[i], values[j]);
    }
  }

  /** The two rules for a sorted list without repetition are one. */
  lemma SortedRulesAgree(values: seq<Text>)
    ensures BrowserSorted(values) <==> HostSorted(values)
  {
    ByTextIsTotal();
    MembersCount(values);
    hide *;
    assert BrowserSorted(values) <==> |Members(values)| == |values| && values == Sort(values, BY_TEXT) by {
      BrowserSortedMeans(values);
    }
    SortedIsOwnSort(values, BY_TEXT);
    AdjacentIsStrict(values);
    StrictIsDistinctAndOrdered(values);
  }

  lemma BrowserSortedMeans(values: seq<Text>)
    ensures BrowserSorted(values) <==> |Members(values)| == |values| && values == Sort(values, BY_TEXT)
  {
  }

  /** A sorted list without repetition, as long as another one whose members it takes, is that list. */
  lemma SortedSubsetIsAll(values: seq<Text>, others: seq<Text>)
    requires HostSorted(values) && HostSorted(others) && |values| == |others|
    requires forall x | x in values :: x in others
    ensures values == others
  {
    ByTextIsTotal();
    AdjacentIsStrict(values);
    AdjacentIsStrict(others);
    StrictIsDistinctAndOrdered(values);
    hide Less, HostSorted;
    DistinctSubset(values, others);
    StrictOrderIsUnique(values, others, BY_TEXT);
  }

  // ------------------------------------------------------------ materials

  datatype MaterialKind = UserSupplied | TfsbRendered | ThirdParty | ExternalClaim

  datatype Material = Material(
    kind: MaterialKind,
    identifier: Text,
    digest: Text,
    licenseExpression: Option<Text>,
    noticeDigest: Option<Text>)

  function KindName(kind: MaterialKind): Text {
    match kind
    case UserSupplied => Ascii("user-supplied")
    case TfsbRendered => Ascii("tfsb-rendered")
    case ThirdParty => Ascii("third-party")
    case ExternalClaim => Ascii("external-claim")
  }

  /** The kind that a name stands for, as the host reads it. */
  function KindNamed(name: Text): Option<MaterialKind> {
    if name == Ascii("external-claim") then Some(ExternalClaim)
    else if name == Ascii("tfsb-rendered") then Some(TfsbRendered)
    else if name == Ascii("third-party") then Some(ThirdParty)
    else if name == Ascii("user-supplied") then Some(UserSupplied)
    else None
  }

  /** Reading a kind gives back what was named, and no two names stand for one kind. */
  lemma KindsReadBack(kind: MaterialKind, name: Text)
    ensures KindNamed(name) == Some(kind) <==> name == KindName(kind)
  {
    assert Ascii("external-claim")[0] == 101 && Ascii("tfsb-rendered")[1] == 102;
    assert Ascii("third-party")[1] == 104 && Ascii("user-supplied")[0] == 117;
    assert Ascii("tfsb-rendered")[0] == 116 && Ascii("third-party")[0] == 116;
  }

  /** Three texts joined by NUL bytes. */
  function NulJoined(a: Text, b: Text, c: Text): Text {
    a + [0] + b + [0] + c
  }

  /** The order of triples, first component first. */
  predicate TripleLess(a: (Text, Text, Text), b: (Text, Text, Text)) {
    || Less(a.0, b.0)
    || (a.0 == b.0 && Less(a.1, b.1))
    || (a.0 == b.0 && a.1 == b.1 && Less(a.2, b.2))
  }

  /** A NUL after each first component decides like the components themselves, whatever follows. */
  lemma {:induction false} NulDecides(a: Text, b: Text, x: Text, y: Text)
    requires 0 !in a && 0 !in b
    ensures Less(a + [0] + x, b + [0] + y) <==> Less(a, b) || (a == b && Less(x, y))
  {
    var s, t := a + [0] + x, b + [0] + y;
    if a == [] || b == [] {
      LessIsTotal(a, b);
      assert a == [] ==> s[1..] == x;
      assert b == [] ==> t[1..] == y;
    } else {
      assert s[1..] == a[1..] + [0] + x && t[1..] == b[1..] + [0] + y;
      LessIsTotal(a, a);
      NulDecides(a[1..], b[1..], x, y);
      assert a == [a[0]] + a[1..] && b == [b[0]] + b[1..];
    }
  }

  /** Comparing the joined texts is comparing the triples, prefixes included. */
  lemma NulJoinedOrder(a: (Text, Text, Text), b: (Text, Text, Text))
    requires 0 !in a.0 && 0 !in a.1 && 0 !in b.0 && 0 !in b.1
    ensures Less(NulJoined(a.0, a.1, a.2), NulJoined(b.0, b.1, b.2)) <==> TripleLess(a, b)
  {
    var x, y := a.1 + [0] + a.2, b.1 + [0] + b.2;
    assert NulJoined(a.0, a.1, a.2) == a.0 + [0] + x && NulJoined(b.0, b.1, b.2) == b.0 + [0] + y;
    NulDecides(a.0, b.0, x, y);
    NulDecides(a.1, b.1, a.2, b.2);
  }

  function Identity(m: Material): (Text, Text, Text) {
    (KindName(m.kind), m.identifier, m.digest)
  }

  function Keys(materials: seq<Material>): (keys: seq<Text>)
    ensures |keys| == |materials|
  {
    seq(|materials|, i requires 0 <= i < |materials| =>
      NulJoined(KindName(materials[i].kind), materials[i].identifier, materials[i].digest))
  }

  ghost predicate BrowserMaterial(m: Material, normal: Normal) {
    && BrowserId(m.identifier, normal)
    && Regex.Matches(DigestRegex(), m.digest)
    && (m.licenseExpression.Some? ==> BrowserText(m.licenseExpression.value, 256, false, normal))
    && (m.noticeDigest.Some? ==> Regex.Matches(DigestRegex(), m.noticeDigest.value))
  }

  ghost predicate BrowserMaterials(materials: seq<Material>, normal: Normal) {
    && |materials| <= 64
    && (forall m | m in materials :: BrowserMaterial(m, normal))
    && BrowserSorted(Keys(materials))
  }

  predicate HostMaterial(m: Material, normal: Normal) {
    && HostId(m.identifier, normal)
    && ValidDigest(m.digest)
    && (m.licenseExpression.Some? ==> SafeText(m.licenseExpression.value, 256, false, normal))
    && (m.noticeDigest.Some? ==> ValidDigest(m.noticeDigest.value))
  }

  predicate HostMaterials(materials: seq<Material>, normal: Normal) {
    && |materials| <= 64
    && (forall m | m in materials :: HostMaterial(m, normal))
    && forall i | 0 <= i < |materials| - 1 :: TripleLess(Identity(materials[i]), Identity(materials[i + 1]))
  }

  lemma MaterialRulesAgree(m: Material, normal: Normal)
    ensures BrowserMaterial(m, normal) <==> HostMaterial(m, normal)
    ensures HostMaterial(m, normal) ==> 0 !in m.identifier
  {
    IdsAgree(m.identifier, normal);
    DigestsAgree(m.digest);
    if m.licenseExpression.Some? {
      TextsAgree(m.licenseExpression.value, 256, false, normal);
    }
    if m.noticeDigest.Some? {
      DigestsAgree(m.noticeDigest.value);
    }
  }

  lemma KindHasNoNul(kind: MaterialKind)
    ensures 0 !in KindName(kind)
  {
  }

  /** Both validators accept the same lists of materials. */
  lemma MaterialsAgree(materials: seq<Material>, normal: Normal)
    ensures BrowserMaterials(materials, normal) <==> HostMaterials(materials, normal)
  {
    forall m | m in materials
      ensures BrowserMaterial(m, normal) <==> HostMaterial(m, normal)
      ensures HostMaterial(m, normal) ==> 0 !in m.identifier
    {
      MaterialRulesAgree(m, normal);
    }
    SortedRulesAgree(Keys(materials));
    hide HostMaterial, BrowserMaterial, Less, TripleLess, NulJoined, BrowserSorted, KindName;
    if forall m | m in materials :: HostMaterial(m, normal) {
      forall i | 0 <= i < |materials| - 1
        ensures Less(Keys(materials)[i], Keys(materials)[i + 1]) <==>
          TripleLess(Identity(materials[i]), Identity(materials[i + 1]))
      {
        assert materials[i] in materials && materials[i + 1] in materials;
        KindHasNoNul(materials[i].kind);
        KindHasNoNul(materials[i + 1].kind);
        NulJoinedOrder(Identity(materials[i]), Identity(materials[i + 1]));
      }
    }
  }

  // ------------------------------------------------------------ reviews

  datatype Scope = Artifact | Region(x: nat, y: nat, width: nat, height: nat)

  /** The enumerations of roles, categories and severities are kept as their names. */
  datatype Annotation = Annotation(
    annotationId: Text,
    candidateDigest: Text,
    visualEvidenceDigest: Text,
    artifactRole: Text,
    pngDigest: Text,
    scope: Scope,
    category: Text,
    severity: Text,
    comment: Text,
    elementId: Option<Text>)

  datatype Status = Unreviewed | Preferred | Approved | Rejected | NeedsRevision | Deferred

  datatype Disposition = Disposition(candidateDigest: Text, status: Status)

  datatype Overall =
    | NoDecision
    | RejectedAll
    | Chosen(status: Status, candidateDigest: Text)

  /** A review whose fields have their declared types. */
  datatype Review = Review(
    briefDigest: Text,
    candidateDigests: seq<Text>,
    previousReviewDigest: Option<Text>,
    annotations: seq<Annotation>,
    dispositions: seq<Disposition>,
    overall: Overall,
    summary: Text,
    reviewDigest: Text)

  const U32: nat := 0x1_0000_0000
  const MILLION: nat := 1_000_000

  /** The overall status is one of the three that name a candidate. */
  predicate Typed(r: Review) {
    r.overall.Chosen? ==> r.overall.status in {Preferred, Approved, NeedsRevision}
  }

  function StatusName(status: Status): string {
    match status
    case Unreviewed => "unreviewed"
    case Preferred => "preferred"
    case Approved => "approved"
    case Rejected => "rejected"
    case NeedsRevision => "needs-revision"
    case Deferred => "deferred"
  }

  /** The status that a name stands for, as the host reads it. */
  function StatusNamed(name: string): Option<Status> {
    if name == "approved" then Some(Approved)
    else if name == "deferred" then Some(Deferred)
    else if name == "needs-revision" then Some(NeedsRevision)
    else if name == "preferred" then Some(Preferred)
    else if name == "rejected" then Some(Rejected)
    else if name == "unreviewed" then Some(Unreviewed)
    else None
  }

  /** Reading a status gives back what was named, and no two names stand for one status. */
  lemma StatusesReadBack(status: Status, name: string)
    ensures StatusNamed(name) == Some(status) <==> name == StatusName(status)
  {
  }

  function AnnotationIds(r: Review): seq<Text> {
    seq(|r.annotations|, i requires 0 <= i < |r.annotations| => r.annotations[i].annotationId)
  }

  function DispositionDigests(r: Review): (digests: seq<Text>)
    ensures |digests| == |r.dispositions|
  {
    seq(|r.dispositions|, i requires 0 <= i < |r.dispositions| => r.dispositions[i].candidateDigest)
  }

  /** How many dispositions satisfy `p`. */
  function Count(ds: seq<Disposition>, p: Disposition -> bool): nat {
    if ds == [] then 0 else Count(ds[..|ds| - 1], p) + if p(ds[|ds| - 1]) then 1 else 0
  }

  // ------------------------------------------------------------ the host's validator

  function Saturating(a: nat, b: nat): nat {
    if a + b < U32 then a + b else U32 - 1
  }

  predicate HostScope(s: Scope) {
    s.Region? ==>
      && s.width != 0
      && s.height != 0
      && Saturating(s.x, s.width) <= MILLION
      && Saturating(s.y, s.height) <= MILLION
  }

  predicate HostAnnotation(a: Annotation, candidates: seq<Text>, normal: Normal) {
    && HostId(a.annotationId, normal)
    && a.candidateDigest in candidates
    && ValidDigest(a.visualEvidenceDigest)
    && ValidDigest(a.pngDigest)
    && SafeText(a.comment, 2_048, true, normal)
    && (a.elementId.Some? ==> HostId(a.elementId.value, normal))
    && HostScope(a.scope)
  }

  /** The host compares enumerated values. */
  predicate HostSelects(d: Disposition) {
    d.status == Preferred || d.status == Approved
  }

  predicate HostOverall(r: Review) {
    match r.overall
    case NoDecision => !exists d :: d in r.dispositions && HostSelects(d)
    case RejectedAll => forall d | d in r.dispositions :: d.status == Rejected
    case Chosen(status, digest) => exists d :: d in r.dispositions && d.candidateDigest == digest && d.status == status
  }

  predicate HostDispositions(r: Review) {
    && |r.dispositions| == |r.candidateDigests|
    && DispositionDigests(r) == r.candidateDigests
    && (forall d | d in r.dispositions :: d.candidateDigest in r.candidateDigests)
    && Count(r.dispositions, HostSelects) <= 1
    && (exists d :: d in r.dispositions && d.status != Unreviewed)
    && HostOverall(r)
  }

  predicate HostReview(r: Review, normal: Normal) {
    && ValidDigest(r.briefDigest)
    && 1 <= |r.candidateDigests| <= 8
    && HostSorted(r.candidateDigests)
    && (forall d | d in r.candidateDigests :: ValidDigest(d))
    && (r.previousReviewDigest.Some? ==> ValidDigest(r.previousReviewDigest.value))
    && |r.annotations| <= 128
    && SafeText(r.summary, 4_096, true, normal)
    && ValidDigest(r.reviewDigest)
    && (forall i | 0 <= i < |r.annotations| - 1 ::
      Less(r.annotations[i].annotationId, r.annotations[i + 1].annotationId))
    && (forall a | a in r.annotations :: HostAnnotation(a, r.candidateDigests, normal))
    && HostDispositions(r)
  }

  // ------------------------------------------------------------ the browser's validator

  ghost predicate BrowserDigest(s: Text) {
    Regex.Matches(DigestRegex(), s)
  }

  predicate BrowserScope(s: Scope) {
    s.Region? ==>
      && s.x <= MILLION && s.y <= MILLION
      && 1 <= s.width <= MILLION && 1 <= s.height <= MILLION
      && s.x + s.width <= MILLION && s.y + s.height <= MILLION
  }

  ghost predicate BrowserAnnotation(a: Annotation, candidates: set<Text>, normal: Normal) {
    && BrowserId(a.annotationId, normal)
    && BrowserDigest(a.candidateDigest)
    && a.candidateDigest in candidates
    && BrowserDigest(a.visualEvidenceDigest)
    && BrowserDigest(a.pngDigest)
    && BrowserText(a.comment, 2_048, true, normal)
    && (a.elementId.Some? ==> BrowserId(a.elementId.value, normal))
    && BrowserScope(a.scope)
  }

  function Names(status: Status, digest: Text): Disposition -> bool {
    (d: Disposition) => d.candidateDigest == digest && d.status == status
  }

  /** The browser compares names. */
  predicate BrowserSelects(d: Disposition) {
    StatusName(d.status) == "preferred" || StatusName(d.status) == "approved"
  }

  predicate IsReviewed(d: Disposition) {
    StatusName(d.status) != "unreviewed"
  }

  ghost predicate BrowserOverall(r: Review, candidates: set<Text>, selected: bool) {
    match r.overall
    case NoDecision => !selected
    case RejectedAll => !exists d :: d in r.dispositions && d.status != Rejected
    case Chosen(status, digest) =>
      BrowserDigest(digest) && digest in candidates && Count(r.dispositions, Names(status, digest)) == 1
  }

  /** The result of the loop over the dispositions. */
  datatype Tally = Tally(digests: seq<Text>, reviewed: nat, selected: Option<Disposition>)

  /** The dispositions tallied so far, unless one is for no candidate or a second one selects. */
  method TallyDispositions(dispositions: seq<Disposition>, candidates: set<Text>) returns (r: Option<Tally>)
    ensures r.Some? <==>
      (forall d | d in dispositions :: d.candidateDigest in candidates) && Count(dispositions, BrowserSelects) <= 1
    ensures r.Some? ==>
      r.value.digests == seq(|dispositions|, i requires 0 <= i < |dispositions| => dispositions[i].candidateDigest)
    ensures r.Some? ==> r.value.reviewed == Count(dispositions, IsReviewed)
    ensures r.Some? ==> (r.value.selected.Some? <==> exists d :: d in dispositions && BrowserSelects(d))
  {
    CountNone(dispositions, BrowserSelects);
    CountNone(dispositions, IsReviewed);
    hide Count, StatusName;
    var tally := Tally([], 0, None);
    for i := 0 to |dispositions|
      invariant forall k | 0 <= k < i :: dispositions[k].candidateDigest in candidates
      invariant |tally.digests| == i && forall k | 0 <= k < i :: tally.digests[k] == dispositions[k].candidateDigest
      invariant tally.reviewed == Count(dispositions[..i], IsReviewed)
      invariant Count(dispositions[..i], BrowserSelects) == if tally.selected.Some? then 1 else 0
    {
      var d := dispositions[i];
      assert d in dispositions;
      CountStep(dispositions, i, BrowserSelects);
      CountStep(dispositions, i, IsReviewed);
      if d.candidateDigest !in candidates {
        return None;
      }
      tally := tally.(digests := tally.digests + [d.candidateDigest]);
      if StatusName(d.status) != "unreviewed" {
        tally := tally.(reviewed := tally.reviewed + 1);
      }
      if StatusName(d.status) == "preferred" || StatusName(d.status) == "approved" {
        if tally.selected.Some? {
          return None;
        }
        tally := tally.(selected := Some(d));
      }
    }
    assert dispositions[..|dispositions|] == dispositions;
    CountIsZero(dispositions, BrowserSelects);
    return Some(tally);
  }

  lemma {:induction false} CountGrows(ds: seq<Disposition>, k: nat, p: Disposition -> bool)
    requires k <= |ds|
    ensures Count(ds[..k], p) <= Count(ds, p)
    decreases |ds|
  {
    if k < |ds| {
      CountGrows(ds[..|ds| - 1], k, p);
      assert ds[..|ds| - 1][..k] == ds[..k];
    } else {
      assert ds[..k] == ds;
    }
  }

  lemma CountNone(ds: seq<Disposition>, p: Disposition -> bool)
    ensures Count(ds[..0], p) == 0
  {
  }

  lemma CountStep(ds: seq<Disposition>, i: nat, p: Disposition -> bool)
    requires i < |ds|
    ensures Count(ds[..i + 1], p) == Count(ds[..i], p) + if p(ds[i]) then 1 else 0
    ensures Count(ds[..i + 1], p) <= Count(ds, p)
  {
    CountGrows(ds, i + 1, p);
    assert ds[..i + 1][..i] == ds[..i];
  }

  lemma {:induction false} CountIsZero(ds: seq<Disposition>, p: Disposition -> bool)
    ensures Count(ds, p) > 0 <==> exists d :: d in ds && p(d)
  {
    if ds != [] {
      CountIsZero(ds[..|ds| - 1], p);
      assert ds == ds[..|ds| - 1] + [ds[|ds| - 1]];
    }
  }

  ghost predicate BrowserReview(r: Review, normal: Normal) {
    && BrowserDigest(r.briefDigest)
    && 1 <= |r.candidateDigests| <= 8
    && (forall d | d in r.candidateDigests :: BrowserDigest(d))
    && BrowserSorted(r.candidateDigests)
    && (r.previousReviewDigest.Some? ==> BrowserDigest(r.previousReviewDigest.value))
    && |r.annotations| <= 128
    && (forall a | a in r.annotations :: BrowserAnnotation(a, Members(r.candidateDigests), normal))
    && BrowserSorted(AnnotationIds(r))
    && BrowserDispositions(r)
    && BrowserText(r.summary, 4_096, true, normal)
    && BrowserDigest(r.reviewDigest)
  }

  /** What the tally and the overall disposition must satisfy. */
  ghost predicate BrowserDispositions(r: Review) {
    var candidates := Members(r.candidateDigests);
    && |r.dispositions| == |candidates|
    && (forall d | d in r.dispositions :: BrowserDigest(d.candidateDigest))
    && (forall d | d in r.dispositions :: d.candidateDigest in candidates)
    && Count(r.dispositions, BrowserSelects) <= 1
    && BrowserSorted(DispositionDigests(r))
    && Count(r.dispositions, IsReviewed) > 0
    && BrowserOverall(r, candidates, exists d :: d in r.dispositions && BrowserSelects(d))
  }

  // ------------------------------------------------------------ the validators agree

  lemma AnnotationRulesAgree(a: Annotation, candidates: seq<Text>, normal: Normal)
    requires forall d | d in candidates :: BrowserDigest(d)
    ensures BrowserAnnotation(a, Members(candidates), normal) <==> HostAnnotation(a, candidates, normal)
  {
    IdsAgree(a.annotationId, normal);
    DigestsAgree(a.visualEvidenceDigest);
    DigestsAgree(a.pngDigest);
    TextsAgree(a.comment, 2_048, true, normal);
    if a.elementId.Some? {
      IdsAgree(a.elementId.value, normal);
    }
    hide BrowserId, HostId, BrowserText, SafeText, ValidDigest, Regex.Matches;
    assert BrowserScope(a.scope) <==> HostScope(a.scope);
  }

  lemma {:induction false} AtMostOneNamed(ds: seq<Disposition>, status: Status, digest: Text)
    requires forall i, j | 0 <= i < j < |ds| :: ds[i].candidateDigest != ds[j].candidateDigest
    ensures Count(ds, Names(status, digest)) <= 1
  {
    if ds != [] {
      var n := |ds| - 1;
      AtMostOneNamed(ds[..n], status, digest);
      CountIsZero(ds[..n], Names(status, digest));
    }
  }

  /** Names and enumerated values say the same. */
  lemma StatusesAgree(d: Disposition)
    ensures BrowserSelects(d) <==> HostSelects(d)
    ensures IsReviewed(d) <==> d.status != Unreviewed
  {
  }

  lemma {:induction false} SelectionsAgree(ds: seq<Disposition>)
    ensures Count(ds, BrowserSelects) == Count(ds, HostSelects)
    ensures (exists d :: d in ds && BrowserSelects(d)) <==> exists d :: d in ds && HostSelects(d)
  {
    hide BrowserSelects, HostSelects;
    forall d
      ensures BrowserSelects(d) <==> HostSelects(d)
    {
      StatusesAgree(d);
    }
    if ds != [] {
      SelectionsAgree(ds[..|ds| - 1]);
    }
  }

  lemma OverallRulesAgree(r: Review)
    requires HostSorted(r.candidateDigests) && DispositionDigests(r) == r.candidateDigests
    requires forall d | d in r.candidateDigests :: BrowserDigest(d)
    ensures BrowserOverall(r, Members(r.candidateDigests), exists d :: d in r.dispositions && BrowserSelects(d)) <==>
      HostOverall(r)
  {
    SelectionsAgree(r.dispositions);
    hide BrowserSelects, HostSelects;
    if r.overall.Chosen? {
      var status, digest := r.overall.status, r.overall.candidateDigest;
      AdjacentIsStrict(r.candidateDigests);
      StrictIsDistinctAndOrdered(r.candidateDigests);
      hide Less, HostSorted, BrowserDigest;
      forall i, j | 0 <= i < j < |r.dispositions|
        ensures r.dispositions[i].candidateDigest != r.dispositions[j].candidateDigest
      {
        assert DispositionDigests(r)[i] != DispositionDigests(r)[j];
      }
      AtMostOneNamed(r.dispositions, status, digest);
      CountIsZero(r.dispositions, Names(status, digest));
      if d :| d in r.dispositions && d.candidateDigest == digest && d.status == status {
        assert Names(status, digest)(d);
        var i :| 0 <= i < |r.dispositions| && r.dispositions[i] == d;
        assert r.candidateDigests[i] == digest;
      }
    }
  }

  /** As many sorted dispositions as candidates, each for a candidate, are the candidates in order. */
  lemma DispositionsAreCandidates(r: Review)
    requires HostSorted(r.candidateDigests) && HostSorted(DispositionDigests(r))
    requires |r.dispositions| == |r.candidateDigests|
    requires forall d | d in r.dispositions :: d.candidateDigest in r.candidateDigests
    ensures DispositionDigests(r) == r.candidateDigests
  {
    hide HostSorted;
    forall x | x in DispositionDigests(r)
      ensures x in r.candidateDigests
    {
      var i :| 0 <= i < |r.dispositions| && DispositionDigests(r)[i] == x;
      assert r.dispositions[i] in r.dispositions;
    }
    SortedSubsetIsAll(DispositionDigests(r), r.candidateDigests);
  }

  lemma ReviewedAgree(r: Review)
    ensures Count(r.dispositions, IsReviewed) > 0 <==> exists d :: d in r.dispositions && d.status != Unreviewed
  {
    CountIsZero(r.dispositions, IsReviewed);
    hide IsReviewed;
    forall d
      ensures IsReviewed(d) <==> d.status != Unreviewed
    {
      StatusesAgree(d);
    }
  }

  lemma DispositionRulesAgree(r: Review)
    requires HostSorted(r.candidateDigests) && DispositionDigests(r) == r.candidateDigests
    requires forall d | d in r.candidateDigests :: BrowserDigest(d)
    ensures BrowserDispositions(r) <==> HostDispositions(r)
  {
    SortedRulesAgree(r.candidateDigests);
    MembersCountSorted(r.candidateDigests);
    ReviewedAgree(r);
    SelectionsAgree(r.dispositions);
    OverallRulesAgree(r);
    hide BrowserSelects, HostSelects;
    hide BrowserSorted, HostSorted, BrowserDigest, BrowserOverall, HostOverall, Count, DispositionDigests;
  }

  lemma DispositionsAgree(r: Review)
    requires HostSorted(r.candidateDigests)
    requires forall d | d in r.candidateDigests :: BrowserDigest(d)
    ensures BrowserDispositions(r) <==> HostDispositions(r)
  {
    if BrowserDispositions(r) {
      SortedRulesAgree(r.candidateDigests);
      SortedRulesAgree(DispositionDigests(r));
      MembersCountSorted(r.candidateDigests);
      hide BrowserSorted, HostSorted, BrowserDigest, BrowserOverall, Count, DispositionDigests;
      DispositionsAreCandidates(r);
    }
    hide BrowserSorted, HostSorted, BrowserDigest, BrowserOverall, HostOverall, Count;
    hide DispositionDigests, BrowserDispositions;
    if DispositionDigests(r) == r.candidateDigests {
      DispositionRulesAgree(r);
    }
  }

  lemma MembersCountSorted(values: seq<Text>)
    requires BrowserSorted(values)
    ensures |Members(values)| == |values|
  {
  }

  lemma AnnotationOrdersAgree(r: Review)
    ensures BrowserSorted(AnnotationIds(r)) <==>
      forall i | 0 <= i < |r.annotations| - 1 :: Less(r.annotations[i].annotationId, r.annotations[i + 1].annotationId)
  {
    SortedRulesAgree(AnnotationIds(r));
    hide BrowserSorted, Less;
    var ids := AnnotationIds(r);
    if HostSorted(ids) {
      forall i | 0 <= i < |r.annotations| - 1
        ensures Less(r.annotations[i].annotationId, r.annotations[i + 1].annotationId)
      {
        assert Less(ids[i], ids[i + 1]);
      }
    }
  }

  lemma AnnotationsAgree(r: Review, normal: Normal)
    requires Typed(r) && forall d | d in r.candidateDigests :: BrowserDigest(d)
    ensures (forall a | a in r.annotations :: BrowserAnnotation(a, Members(r.candidateDigests), normal)) <==>
      forall a | a in r.annotations :: HostAnnotation(a, r.candidateDigests, normal)
  {
    hide BrowserAnnotation, HostAnnotation, BrowserDigest;
    forall a | a in r.annotations
      ensures BrowserAnnotation(a, Members(r.candidateDigests), normal) <==>
        HostAnnotation(a, r.candidateDigests, normal)
    {
      AnnotationRulesAgree(a, r.candidateDigests, normal);
    }
  }

  lemma DigestFieldsAgree(r: Review)
    ensures BrowserDigest(r.briefDigest) <==> ValidDigest(r.briefDigest)
    ensures BrowserDigest(r.reviewDigest) <==> ValidDigest(r.reviewDigest)
    ensures r.previousReviewDigest.Some? ==>
      (BrowserDigest(r.previousReviewDigest.value) <==> ValidDigest(r.previousReviewDigest.value))
    ensures (forall d | d in r.candidateDigests :: BrowserDigest(d)) <==>
      forall d | d in r.candidateDigests :: ValidDigest(d)
  {
    DigestsAgree(r.briefDigest);
    DigestsAgree(r.reviewDigest);
    if r.previousReviewDigest.Some? {
      DigestsAgree(r.previousReviewDigest.value);
    }
    hide ValidDigest, Regex.Matches;
    forall d | d in r.candidateDigests
      ensures BrowserDigest(d) <==> ValidDigest(d)
    {
      DigestsAgree(d);
    }
  }

  lemma ReviewPartsAgree(r: Review, normal: Normal)
    requires Typed(r) && HostSorted(r.candidateDigests) && forall d | d in r.candidateDigests :: BrowserDigest(d)
    ensures BrowserReview(r, normal) <==> HostReview(r, normal)
  {
    DigestFieldsAgree(r);
    TextsAgree(r.summary, 4_096, true, normal);
    SortedRulesAgree(r.candidateDigests);
    AnnotationOrdersAgree(r);
    AnnotationsAgree(r, normal);
    DispositionsAgree(r);
    hide BrowserDigest, ValidDigest, BrowserText, SafeText, BrowserSorted, HostSorted, Less;
    hide BrowserAnnotation, HostAnnotation;
    hide BrowserDispositions, HostDispositions, AnnotationIds, Members, Typed;
  }

  /** The browser and the host accept exactly the same typed reviews. */
  lemma ReviewsAgree(r: Review, normal: Normal)
    requires Typed(r)
    ensures BrowserReview(r, normal) <==> HostReview(r, normal)
  {
    DigestFieldsAgree(r);
    SortedRulesAgree(r.candidateDigests);
    hide BrowserDigest, ValidDigest, BrowserText, SafeText, BrowserSorted, HostSorted, Less;
    hide BrowserAnnotation, HostAnnotation;
    hide BrowserDispositions, HostDispositions, AnnotationIds, Members, Typed;
    if HostSorted(r.candidateDigests) && forall d | d in r.candidateDigests :: BrowserDigest(d) {
      ReviewPartsAgree(r, normal);
    }
  }
}
