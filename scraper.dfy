/** `scrapeCourses` of content.js: four detection tiers tried in order, each
    run only while no course has been found. Tiers 1 to 3 turn DOM elements
    into candidates (a trimmed label and a URL), drop candidates whose id was
    already seen, whose label is shorter than 3 characters or whose lower-cased
    label contains a word of the tier's block-list, and build a record from the
    rest; tier 4 mines course codes out of the page text.

    The DOM is abstracted to what the selectors return: per tier, the list of
    matched elements with the text and href the source reads from them. */
module Scraper {
  import opened Text
  import opened Normalizer

  /** One extracted course: `{id, name, code, url}`. */
  datatype Course = Course(id: string, name: string, code: string, url: string)

  /** A tier-1 card: the `textContent` of its first title element (h3,
      .coursename or [role=heading]) and the `href` of its first course link
      (a course-view link, else any link with `id=`), each when the card has one. */
  datatype Card = Card(title: Option<string>, href: Option<string>)

  /** An anchor element: its resolved `href` (empty when it has none) and its `textContent`. */
  datatype Anchor = Anchor(href: string, text: string)

  /** What the four tiers read from the document: the card elements, the
      anchors inside navigation regions, every anchor whose href attribute
      contains the course-view path, and `document.body.innerText`. */
  datatype Page = Page(cards: seq<Card>, navAnchors: seq<Anchor>, courseAnchors: seq<Anchor>, bodyText: string)

  /** A DOM element that passed its tier's structural test: its trimmed label,
      its URL and the id extracted from that URL. */
  datatype Candidate = Candidate(rawName: string, url: string, id: string)

  /** The candidate read from an element with label text `text` and link `href`:
      the trimmed label, the link as URL, and the id extracted from the link. */
  function ReadCandidate(text: string, href: string): (c: Candidate)
    ensures c.rawName == Trim(text) && NoOuterSpace(c.rawName)
    ensures c.url == href && c.id == ExtractCourseId(href)
  {
    Candidate(Trim(text), href, ExtractCourseId(href))
  }

  /** The three element-based tiers, in priority order. */
  datatype Tier = Cards | NavLinks | CourseLinks

  const CourseViewPath: string := "/course/view.php"
  const FallbackCodeLength: nat := 20
  const PlaceholderUrl: string := "#"

  /** The words every tier blocks. */
  const CommonBlockWords: seq<string> := ["enter", "view", "notification", "starred"]

  /** The lower-case words whose presence marks a label as UI text, per tier.
      They are lower case, so testing the lower-cased label ignores case. */
  function BlockList(tier: Tier): (r: seq<string>)
    ensures forall k :: 0 <= k < |r| ==> ToLower(r[k]) == r[k]
    ensures forall k :: 0 <= k < |CommonBlockWords| ==> CommonBlockWords[k] in r
    ensures tier != Cards ==> "home" in r
    ensures tier == CourseLinks ==> "lihat" in r && "dashboard" in r
    ensures forall w :: w in r <==>
              (w in CommonBlockWords || (tier != Cards && w == "home")
               || (tier == CourseLinks && (w == "lihat" || w == "dashboard")))
  {
    match tier
    case Cards => ["enter", "view", "notification", "starred"]
    case NavLinks => ["enter", "view", "home", "notification", "starred"]
    case CourseLinks => ["enter", "view", "lihat", "home", "dashboard", "notification", "starred"]
  }

  /** Tier 1: a card is a candidate only when it has both a title and a link. */
  function CardCandidate(card: Card): (c: Option<Candidate>)
    ensures c.Some? <==> card.title.Some? && card.href.Some?
    ensures c.Some? ==> c.value == ReadCandidate(card.title.value, card.href.value)
  {
    if card.title.Some? && card.href.Some? then Some(ReadCandidate(card.title.value, card.href.value))
    else None
  }

  /** Tier 2: a navigation anchor is a candidate when its href is non-empty and
      contains the course-view path. */
  function NavCandidate(a: Anchor): (c: Option<Candidate>)
    ensures c.Some? <==> a.href != [] && Contains(a.href, CourseViewPath)
    ensures c.Some? ==> c.value == ReadCandidate(a.text, a.href)
  {
    if a.href != [] && Contains(a.href, CourseViewPath) then Some(ReadCandidate(a.text, a.href))
    else None
  }

  /** Tier 3: every selected anchor is a candidate. */
  function LinkCandidate(a: Anchor): (c: Option<Candidate>)
    ensures c.Some? && c.value == ReadCandidate(a.text, a.href)
  {
    Some(ReadCandidate(a.text, a.href))
  }

  /** The candidates of a tier, one per selected element, in document order. */
  function Candidates(page: Page, tier: Tier): (r: seq<Option<Candidate>>)
    ensures tier == Cards ==>
              |r| == |page.cards| && forall k :: 0 <= k < |r| ==> r[k] == CardCandidate(page.cards[k])
    ensures tier == NavLinks ==>
              |r| == |page.navAnchors| && forall k :: 0 <= k < |r| ==> r[k] == NavCandidate(page.navAnchors[k])
    ensures tier == CourseLinks ==>
              |r| == |page.courseAnchors| && forall k :: 0 <= k < |r| ==> r[k] == LinkCandidate(page.courseAnchors[k])
  {
    match tier
    case Cards => seq(|page.cards|, k requires 0 <= k < |page.cards| => CardCandidate(page.cards[k]))
    case NavLinks => seq(|page.navAnchors|, k requires 0 <= k < |page.navAnchors| => NavCandidate(page.navAnchors[k]))
    case CourseLinks => seq(|page.courseAnchors|, k requires 0 <= k < |page.courseAnchors| => LinkCandidate(page.courseAnchors[k]))
  }

  /** The lower-cased label contains one of the block-list words. */
  predicate Blocked(rawName: string, blockList: seq<string>) {
    exists k :: 0 <= k < |blockList| && Contains(ToLower(rawName), blockList[k])
  }

  /** The filters of a tier that do not depend on earlier candidates. */
  predicate Admissible(c: Option<Candidate>, blockList: seq<string>) {
    c.Some? && |c.value.rawName| >= 3 && !Blocked(c.value.rawName, blockList)
  }

  /** The record built for an accepted candidate. */
  function MakeCourse(c: Candidate): (r: Course)
    ensures ExtractCourseCode(c.rawName).Some? ==> r.code == ExtractCourseCode(c.rawName).value
    ensures ExtractCourseCode(c.rawName).Some? ==> IsCourseCode(r.code)
    ensures ExtractCourseCode(c.rawName).None? ==>
              |r.code| == (if |r.name| < FallbackCodeLength then |r.name| else FallbackCodeLength)
              && r.code == r.name[..|r.code|]
    ensures r.code == [] ==> r.name == []
    ensures r.id == c.id && r.url == c.url && r.name == CleanCourseName(c.rawName)
  {
    var code := ExtractCourseCode(c.rawName);
    var name := CleanCourseName(c.rawName);
    Course(c.id, name,
           if code.Some? then code.value
           else name[..if |name| < FallbackCodeLength then |name| else FallbackCodeLength],
           c.url)
  }

  /** The id a candidate is known by. */
  function IdOf(c: Option<Candidate>): string
    requires c.Some?
  {
    c.value.id
  }

  /** Candidate k is accepted: it is admissible, its id is not in the starting
      seen-set, and no earlier admissible candidate has the same id (first wins). */
  predicate Kept(cs: seq<Option<Candidate>>, blockList: seq<string>, seen: set<string>, k: nat)
    requires k < |cs|
  {
    Admissible(cs[k], blockList) && IdOf(cs[k]) !in seen
    && forall j :: 0 <= j < k && Admissible(cs[j], blockList) ==> IdOf(cs[j]) != IdOf(cs[k])
  }

  /** A record builder that gives each record its candidate's id, as `MakeCourse` does. */
  ghost predicate KeepsId(build: Candidate -> Course) {
    forall c :: build(c).id == c.id
  }

  /** The records `build` makes of the kept candidates among the first n, in order. */
  function Selected(cs: seq<Option<Candidate>>, blockList: seq<string>, seen: set<string>,
                    build: Candidate -> Course, n: nat): seq<Course>
    requires n <= |cs|
  {
    if n == 0 then []
    else Selected(cs, blockList, seen, build, n - 1)
         + if Kept(cs, blockList, seen, n - 1) then [build(cs[n - 1].value)] else []
  }

  /** The set of ids of a list of records. */
  function Ids(courses: seq<Course>): set<string> {
    set k | 0 <= k < |courses| :: courses[k].id
  }

  /** No two records share an id. */
  predicate IdsDistinct(courses: seq<Course>) {
    forall p, q :: 0 <= p < q < |courses| ==> courses[p].id != courses[q].id
  }

  lemma IdsAppend(a: seq<Course>, b: seq<Course>)
    ensures Ids(a + b) == Ids(a) + Ids(b)
  {
    forall x | x in Ids(a + b) ensures x in Ids(a) + Ids(b) {
      var k :| 0 <= k < |a + b| && (a + b)[k].id == x;
      if k >= |a| { assert b[k - |a|].id == x; }
    }
    forall x | x in Ids(a) + Ids(b) ensures x in Ids(a + b) {
      if x in Ids(a) {
        var k :| 0 <= k < |a| && a[k].id == x;
        assert (a + b)[k].id == x;
      } else {
        var k :| 0 <= k < |b| && b[k].id == x;
        assert (a + b)[|a| + k].id == x;
      }
    }
  }

  /** Every selected record is the record of a kept candidate. */
  lemma {:induction false} SelectedSound(cs: seq<Option<Candidate>>, blockList: seq<string>, seen: set<string>,
                                         build: Candidate -> Course, n: nat, p: nat)
    requires n <= |cs| && p < |Selected(cs, blockList, seen, build, n)|
    ensures exists k :: 0 <= k < n && Kept(cs, blockList, seen, k)
                        && Selected(cs, blockList, seen, build, n)[p] == build(cs[k].value)
  {
    var prev := Selected(cs, blockList, seen, build, n - 1);
    if p < |prev| {
      SelectedSound(cs, blockList, seen, build, n - 1, p);
      var k :| 0 <= k < n - 1 && Kept(cs, blockList, seen, k) && prev[p] == build(cs[k].value);
      assert Selected(cs, blockList, seen, build, n)[p] == prev[p];
    } else {
      assert Kept(cs, blockList, seen, n - 1);
    }
  }

  /** The id of every admissible candidate among the first n that was not in
      the starting seen-set is the id of a selected record. */
  lemma {:induction false} SelectedComplete(cs: seq<Option<Candidate>>, blockList: seq<string>, seen: set<string>,
                                            build: Candidate -> Course, n: nat, j: nat)
    requires KeepsId(build)
    requires j < n <= |cs|
    requires Admissible(cs[j], blockList) && IdOf(cs[j]) !in seen
    ensures IdOf(cs[j]) in Ids(Selected(cs, blockList, seen, build, n))
  {
    var prev := Selected(cs, blockList, seen, build, n - 1);
    var tail := if Kept(cs, blockList, seen, n - 1) then [build(cs[n - 1].value)] else [];
    IdsAppend(prev, tail);
    if j < n - 1 {
      SelectedComplete(cs, blockList, seen, build, n - 1, j);
    } else if Kept(cs, blockList, seen, n - 1) {
      assert tail[0].id == IdOf(cs[j]);
    } else {
      var i :| 0 <= i < j && Admissible(cs[i], blockList) && IdOf(cs[i]) == IdOf(cs[j]);
      SelectedComplete(cs, blockList, seen, build, n - 1, i);
    }
  }

  /** One step of the tier loop: an admissible candidate is kept exactly when its
      id is neither in the starting seen-set nor among the records so far. */
  lemma KeptIff(cs: seq<Option<Candidate>>, blockList: seq<string>, seen: set<string>,
                build: Candidate -> Course, i: nat)
    requires KeepsId(build)
    requires i < |cs| && Admissible(cs[i], blockList)
    ensures Kept(cs, blockList, seen, i) <==> IdOf(cs[i]) !in seen + Ids(Selected(cs, blockList, seen, build, i))
  {
    var sel := Selected(cs, blockList, seen, build, i);
    if IdOf(cs[i]) in Ids(sel) {
      var p :| 0 <= p < |sel| && sel[p].id == IdOf(cs[i]);
      SelectedSound(cs, blockList, seen, build, i, p);
    }
    if IdOf(cs[i]) !in seen && !Kept(cs, blockList, seen, i) {
      var j :| 0 <= j < i && Admissible(cs[j], blockList) && IdOf(cs[j]) == IdOf(cs[i]);
      SelectedComplete(cs, blockList, seen, build, i, j);
    }
  }

  /** The selected records have pairwise distinct ids, none of them in the
      starting seen-set. */
  lemma {:induction false} SelectedDistinct(cs: seq<Option<Candidate>>, blockList: seq<string>, seen: set<string>,
                                            build: Candidate -> Course, n: nat)
    requires KeepsId(build)
    requires n <= |cs|
    ensures IdsDistinct(Selected(cs, blockList, seen, build, n))
    ensures Ids(Selected(cs, blockList, seen, build, n)) !! seen
  {
    if n > 0 {
      var prev := Selected(cs, blockList, seen, build, n - 1);
      SelectedDistinct(cs, blockList, seen, build, n - 1);
      var tail := if Kept(cs, blockList, seen, n - 1) then [build(cs[n - 1].value)] else [];
      IdsAppend(prev, tail);
      if Kept(cs, blockList, seen, n - 1) {
        KeptIff(cs, blockList, seen, build, n - 1);
        var all := prev + tail;
        forall p, q | 0 <= p < q < |all| ensures all[p].id != all[q].id {
          if q == |prev| { assert all[p].id in Ids(prev); }
          else { assert all[p] == prev[p] && all[q] == prev[q]; }
        }
      }
    }
  }

  /** Nothing is selected exactly when every admissible candidate was already seen. */
  lemma {:induction false} SelectedEmptyIff(cs: seq<Option<Candidate>>, blockList: seq<string>, seen: set<string>,
                                            build: Candidate -> Course, n: nat)
    requires KeepsId(build)
    requires n <= |cs|
    ensures Selected(cs, blockList, seen, build, n) == [] <==>
              forall k :: 0 <= k < n && Admissible(cs[k], blockList) ==> IdOf(cs[k]) in seen
  {
    if exists k :: 0 <= k < n && Admissible(cs[k], blockList) && IdOf(cs[k]) !in seen {
      var k :| 0 <= k < n && Admissible(cs[k], blockList) && IdOf(cs[k]) !in seen;
      SelectedComplete(cs, blockList, seen, build, n, k);
    } else if Selected(cs, blockList, seen, build, n) != [] {
      SelectedSound(cs, blockList, seen, build, n, 0);
    }
  }

  /** The loop a tier runs over its elements (one `forEach` of the source),
      appending to `courses` and recording ids in `seenIds`. */
  method ScanTier(cs: seq<Option<Candidate>>, blockList: seq<string>, build: Candidate -> Course,
                  courses: seq<Course>, seenIds: set<string>)
    returns (courses': seq<Course>, seenIds': set<string>)
    requires KeepsId(build)
    requires seenIds == Ids(courses)
    ensures courses' == courses + Selected(cs, blockList, seenIds, build, |cs|)
    ensures seenIds' == Ids(courses')
  {
    courses', seenIds' := courses, seenIds;
    var i := 0;
    while i < |cs|
      invariant i <= |cs|
      invariant courses' == courses + Selected(cs, blockList, seenIds, build, i)
      invariant seenIds' == seenIds + Ids(Selected(cs, blockList, seenIds, build, i))
    {
      ghost var sel := Selected(cs, blockList, seenIds, build, i);
      if cs[i].Some? {
        var c := cs[i].value;
        var id := c.id;
        if id !in seenIds' && |c.rawName| >= 3 && !Blocked(c.rawName, blockList) {
          KeptIff(cs, blockList, seenIds, build, i);
          IdsAppend(sel, [build(c)]);
          assert build(c).id == id;
          assert Ids([build(c)]) == {id} by { assert [build(c)][0].id == id; }
          seenIds' := seenIds' + {id};
          courses' := courses' + [build(c)];
        } else if Admissible(cs[i], blockList) {
          KeptIff(cs, blockList, seenIds, build, i);
        }
      }
      if Kept(cs, blockList, seenIds, i) {
        assert Selected(cs, blockList, seenIds, build, i + 1) == sel + [build(cs[i].value)];
      } else {
        assert Selected(cs, blockList, seenIds, build, i + 1) == sel + [] == sel;
      }
      i := i + 1;
    }
    IdsAppend(courses, Selected(cs, blockList, seenIds, build, |cs|));
  }

  // ---------------------------------------------------------------------------
  // Tier 4: course codes in the page text

  /** A match of `[A-Z]{4}\d{4}(?:\.\d+)?`: a code, optionally with a `.digits` suffix. */
  predicate IsCodeMatch(m: string) {
    |m| >= 8 && UpperCodeAt(m, 0)
    && (|m| == 8 || (|m| >= 10 && m[8] == '.' && forall k :: 9 <= k < |m| ==> IsDigit(m[k])))
  }

  /** Every position of s[i..] where `[A-Z]{4}\d{4}` occurs, in increasing order. */
  function CodePositions(s: string, i: nat): (ps: seq<nat>)
    requires i <= |s|
    ensures forall k :: 0 <= k < |ps| ==> i <= ps[k] && UpperCodeAt(s, ps[k])
    ensures forall j :: i <= j && UpperCodeAt(s, j) ==> j in ps
    ensures forall p, q :: 0 <= p < q < |ps| ==> ps[p] < ps[q]
    decreases |s| - i
  {
    if i == |s| then []
    else
      var rest := CodePositions(s, i + 1);
      if UpperCodeAt(s, i) then
        assert forall k :: 0 < k < |rest| + 1 ==> ([i] + rest)[k] == rest[k - 1];
        [i] + rest
      else rest
  }

  /** What the unbounded pattern matches at a code position: the code and its
      greedy dotted suffix. */
  function CodeMatchAt(s: string, j: nat): (m: string)
    requires UpperCodeAt(s, j)
    ensures IsCodeMatch(m)
  {
    var e := DotDigitsEnd(s, j + 8);
    var m := s[j..e];
    assert forall k :: 0 <= k < |m| ==> m[k] == s[j + k];
    m
  }

  /** Positions without a code do not change the list of code positions. */
  lemma {:induction false} SkipCodePositions(s: string, a: nat, b: nat)
    requires a <= b <= |s|
    requires forall k :: a <= k < b ==> !UpperCodeAt(s, k)
    ensures CodePositions(s, a) == CodePositions(s, b)
    decreases b - a
  {
    if a < b {
      SkipNonCode(s, a);
      SkipCodePositions(s, a + 1, b);
    }
  }

  lemma SkipNonCode(s: string, a: nat)
    requires a < |s| && !UpperCodeAt(s, a)
    ensures CodePositions(s, a) == CodePositions(s, a + 1)
  {
  }

  /** The matches of the global, unbounded `/([A-Z]{4}\d{4}(?:\.\d+)?)/g` in s[i..],
      the scan resuming after each match: one match per code position, in
      order, each the code with its greedy dotted suffix. */
  function CodeMatchesFrom(s: string, i: nat): (r: seq<string>)
    requires i <= |s|
    ensures |r| == |CodePositions(s, i)|
    ensures forall k :: 0 <= k < |r| ==> r[k] == CodeMatchAt(s, CodePositions(s, i)[k])
    ensures forall k :: 0 <= k < |r| ==> IsCodeMatch(r[k])
    ensures r == [] <==> forall j :: i <= j ==> !UpperCodeAt(s, j)
    decreases |s| - i
  {
    if i == |s| then []
    else if UpperCodeAt(s, i) then
      var e := DotDigitsEnd(s, i + 8);
      var rest := CodeMatchesFrom(s, e);
      CodePositionsAtCode(s, i);
      ConsMatches(s, i, CodePositions(s, e), rest);
      [CodeMatchAt(s, i)] + rest
    else
      SkipNonCode(s, i);
      CodeMatchesFrom(s, i + 1)
  }

  /** At a code position the next code position is past its match. */
  lemma CodePositionsAtCode(s: string, i: nat)
    requires UpperCodeAt(s, i)
    ensures CodePositions(s, i) == [i] + CodePositions(s, DotDigitsEnd(s, i + 8))
  {
    NoCodeInsideMatch(s, i);
    SkipCodePositions(s, i + 1, DotDigitsEnd(s, i + 8));
  }

  /** One more match in front of a list of matches, one more position in front
      of their positions. */
  lemma ConsMatches(s: string, j: nat, ps: seq<nat>, rest: seq<string>)
    requires UpperCodeAt(s, j) && |rest| == |ps|
    requires forall k :: 0 <= k < |ps| ==> UpperCodeAt(s, ps[k]) && rest[k] == CodeMatchAt(s, ps[k])
    ensures forall k :: 0 <= k < |ps| + 1 ==>
              UpperCodeAt(s, ([j] + ps)[k]) && ([CodeMatchAt(s, j)] + rest)[k] == CodeMatchAt(s, ([j] + ps)[k])
  {
  }

  /** `bodyText.match(codePattern)`, with no match as the empty list: one match
      per code position of the text, in order. */
  function CodeMatches(text: string): (r: seq<string>)
    ensures |r| == |CodePositions(text, 0)|
    ensures forall k :: 0 <= k < |r| ==> r[k] == CodeMatchAt(text, CodePositions(text, 0)[k])
  {
    CodeMatchesFrom(text, 0)
  }

  /** `[...new Set(xs)]`: each element once, in the order of its first occurrence. */
  function Distinct(xs: seq<string>): (r: seq<string>)
    ensures forall x :: x in r <==> x in xs
    ensures forall p, q :: 0 <= p < q < |r| ==> r[p] != r[q]
  {
    if xs == [] then []
    else
      var d := Distinct(xs[..|xs| - 1]);
      if xs[|xs| - 1] in d then d else d + [xs[|xs| - 1]]
  }

  /** Position of the first occurrence of x in xs. */
  function FirstIndex(xs: seq<string>, x: string): (k: nat)
    requires x in xs
    ensures k < |xs| && xs[k] == x && forall j :: 0 <= j < k ==> xs[j] != x
  {
    if xs[0] == x then 0 else 1 + FirstIndex(xs[1..], x)
  }

  /** `Distinct` lists the elements in the order of their first occurrences. */
  lemma {:induction false} DistinctInFirstOccurrenceOrder(xs: seq<string>, p: nat, q: nat)
    requires p < q < |Distinct(xs)|
    ensures FirstIndex(xs, Distinct(xs)[p]) < FirstIndex(xs, Distinct(xs)[q])
  {
    var init := xs[..|xs| - 1];
    var last := xs[|xs| - 1];
    var d := Distinct(init);
    FirstIndexPrefix(xs, Distinct(xs)[p]);
    FirstIndexPrefix(xs, Distinct(xs)[q]);
    if q < |d| {
      DistinctInFirstOccurrenceOrder(init, p, q);
    } else {
      assert Distinct(xs)[q] == last && last !in init;
      assert Distinct(xs)[p] == d[p] && d[p] in init;
    }
  }

  /** The first occurrence of an element of a prefix lies in the prefix. */
  lemma FirstIndexPrefix(xs: seq<string>, x: string)
    requires xs != [] && x in xs
    ensures x in xs[..|xs| - 1] ==> FirstIndex(xs, x) == FirstIndex(xs[..|xs| - 1], x)
    ensures x !in xs[..|xs| - 1] ==> FirstIndex(xs, x) == |xs| - 1
  {
    var init := xs[..|xs| - 1];
    var k := FirstIndex(xs, x);
    if x in init {
      var k' := FirstIndex(init, x);
      assert xs[k'] == x;
      assert forall j :: 0 <= j < |init| ==> init[j] == xs[j];
      assert k == k';
    } else {
      assert forall j :: 0 <= j < |init| ==> init[j] == xs[j];
      assert k == |xs| - 1;
    }
  }

  /** The record tier 4 builds from one match. */
  function CodeCourse(m: string): (r: Course)
    ensures r.id == m && r.name == m && r.code == m && r.url == PlaceholderUrl
  {
    Course(m, m, m, PlaceholderUrl)
  }

  /** The records of tier 4: one per distinct match, in first-occurrence order. */
  function TextCourses(text: string): (r: seq<Course>)
    ensures |r| == |Distinct(CodeMatches(text))|
    ensures forall k :: 0 <= k < |r| ==> r[k] == CodeCourse(Distinct(CodeMatches(text))[k])
  {
    CodeCourses(Distinct(CodeMatches(text)))
  }

  /** One tier-4 record per code, in order. */
  function CodeCourses(codes: seq<string>): (r: seq<Course>)
    ensures |r| == |codes|
    ensures forall k :: 0 <= k < |r| ==> r[k] == CodeCourse(codes[k])
  {
    seq(|codes|, k requires 0 <= k < |codes| => CodeCourse(codes[k]))
  }

  // ---------------------------------------------------------------------------
  // The driver

  /** The records a tier produces when it runs (it only runs on an empty list). */
  function TierCourses(page: Page, tier: Tier): seq<Course> {
    var cs := Candidates(page, tier);
    Selected(cs, BlockList(tier), {}, MakeCourse, |cs|)
  }

  /** What `scrapeCourses` returns: the output of the first tier that produces anything. */
  function Scrape(page: Page): seq<Course> {
    var t1 := TierCourses(page, Cards);
    if t1 != [] then t1
    else
      var t2 := TierCourses(page, NavLinks);
      if t2 != [] then t2
      else
        var t3 := TierCourses(page, CourseLinks);
        if t3 != [] then t3
        else TextCourses(page.bodyText)
  }

  /** `[...new Set(matches)]`, built by one pass that keeps a set of the codes seen. */
  method UniqueCodes(matches: seq<string>) returns (unique: seq<string>)
    ensures unique == Distinct(matches)
  {
    var seen: set<string> := {};
    unique := [];
    for k := 0 to |matches|
      invariant unique == Distinct(matches[..k])
      invariant forall x :: x in seen <==> x in unique
    {
      assert matches[..k + 1][..k] == matches[..k];
      if matches[k] !in seen {
        seen := seen + {matches[k]};
        unique := unique + [matches[k]];
      }
    }
    assert matches[..|matches|] == matches;
  }

  /** Tier 4: append one record per distinct code match of the text. */
  method ScanText(text: string, courses: seq<Course>) returns (courses': seq<Course>)
    ensures courses' == courses + TextCourses(text)
  {
    var matches := CodeMatches(text);
    var uniqueCodes := UniqueCodes(matches);
    courses' := PushCodeCourses(uniqueCodes, courses);
  }

  /** The `uniqueCodes.forEach` loop of tier 4: push one record per code. */
  method PushCodeCourses(codes: seq<string>, courses: seq<Course>) returns (courses': seq<Course>)
    ensures courses' == courses + CodeCourses(codes)
  {
    courses' := courses;
    for k := 0 to |codes|
      invariant courses' == courses + CodeCourses(codes[..k])
    {
      assert codes[..k + 1] == codes[..k] + [codes[k]];
      assert CodeCourses(codes[..k + 1]) == CodeCourses(codes[..k]) + [CodeCourse(codes[k])];
      courses' := courses' + [CodeCourse(codes[k])];
    }
    assert codes[..|codes|] == codes;
  }

  /** `scrapeCourses`: run the tiers in order while `courses` is empty. */
  method ScrapeCourses(page: Page) returns (courses: seq<Course>)
    ensures courses == Scrape(page)
  {
    courses := [];
    var seenIds: set<string> := {};

    // Method 1: course cards
    assert KeepsId(MakeCourse);
    courses, seenIds := ScanTier(Candidates(page, Cards), BlockList(Cards), MakeCourse, courses, seenIds);

    // Method 2: navigation links
    if |courses| == 0 {
      courses, seenIds := ScanTier(Candidates(page, NavLinks), BlockList(NavLinks), MakeCourse, courses, seenIds);
    }

    // Method 3: all course links
    if |courses| == 0 {
      courses, seenIds := ScanTier(Candidates(page, CourseLinks), BlockList(CourseLinks), MakeCourse, courses, seenIds);
    }

    // Method 4: course codes in the visible text
    if |courses| == 0 {
      courses := ScanText(page.bodyText, courses);
    }
  }
}

/** Properties of `scrapeCourses` as a whole. */
module ScraperProperties {
  import opened Text
  import opened Normalizer
  import opened NormalizerCases
  import opened Scraper

  /** No candidate of the tier passes the tier's own filters. */
  predicate NothingAdmissible(page: Page, tier: Tier) {
    forall k :: 0 <= k < |Candidates(page, tier)| ==> !Admissible(Candidates(page, tier)[k], BlockList(tier))
  }

  lemma MakeCourseKeepsId()
    ensures KeepsId(MakeCourse)
  {
  }

  /** A tier produces nothing exactly when none of its candidates is admissible. */
  lemma TierCoursesEmptyIff(page: Page, tier: Tier)
    ensures TierCourses(page, tier) == [] <==> NothingAdmissible(page, tier)
  {
    MakeCourseKeepsId();
    var cs := Candidates(page, tier);
    SelectedEmptyIff(cs, BlockList(tier), {}, MakeCourse, |cs|);
  }

  /** Every record of a tier is the record of an admissible candidate that is the
      first admissible one with its id. */
  lemma TierCoursesSound(page: Page, tier: Tier, p: nat)
    requires p < |TierCourses(page, tier)|
    ensures exists k :: 0 <= k < |Candidates(page, tier)| && Kept(Candidates(page, tier), BlockList(tier), {}, k)
                        && TierCourses(page, tier)[p] == MakeCourse(Candidates(page, tier)[k].value)
  {
    var cs := Candidates(page, tier);
    SelectedSound(cs, BlockList(tier), {}, MakeCourse, |cs|, p);
  }

  /** Every admissible candidate of a tier has its id among the tier's records. */
  lemma TierCoursesComplete(page: Page, tier: Tier, k: nat)
    requires k < |Candidates(page, tier)| && Admissible(Candidates(page, tier)[k], BlockList(tier))
    ensures IdOf(Candidates(page, tier)[k]) in Ids(TierCourses(page, tier))
  {
    MakeCourseKeepsId();
    var cs := Candidates(page, tier);
    SelectedComplete(cs, BlockList(tier), {}, MakeCourse, |cs|, k);
  }

  /** Tier 4 produces nothing exactly when the text holds no `[A-Z]{4}\d{4}`. */
  lemma TextCoursesEmptyIff(text: string)
    ensures TextCourses(text) == [] <==> forall i :: 0 <= i ==> !UpperCodeAt(text, i)
  {
    var ms := CodeMatches(text);
    if ms != [] {
      assert ms[0] in Distinct(ms);
    }
  }

  /** The tier that decides the result is the first one with an admissible
      candidate; tier 4 runs only when none of tiers 1 to 3 has one. */
  lemma ScrapePriority(page: Page)
    ensures !NothingAdmissible(page, Cards) ==> Scrape(page) == TierCourses(page, Cards)
    ensures (NothingAdmissible(page, Cards) && !NothingAdmissible(page, NavLinks))
            ==> Scrape(page) == TierCourses(page, NavLinks)
    ensures (NothingAdmissible(page, Cards) && NothingAdmissible(page, NavLinks)
             && !NothingAdmissible(page, CourseLinks))
            ==> Scrape(page) == TierCourses(page, CourseLinks)
    ensures (NothingAdmissible(page, Cards) && NothingAdmissible(page, NavLinks)
             && NothingAdmissible(page, CourseLinks))
            ==> Scrape(page) == TextCourses(page.bodyText)
  {
    TierCoursesEmptyIff(page, Cards);
    TierCoursesEmptyIff(page, NavLinks);
    TierCoursesEmptyIff(page, CourseLinks);
  }

  /** No course is found exactly when no tier has an admissible candidate and
      the page text holds no course code. */
  lemma ScrapeEmptyIff(page: Page)
    ensures Scrape(page) == [] <==>
              NothingAdmissible(page, Cards) && NothingAdmissible(page, NavLinks)
              && NothingAdmissible(page, CourseLinks)
              && forall i :: 0 <= i ==> !UpperCodeAt(page.bodyText, i)
  {
    ScrapePriority(page);
    TierCoursesEmptyIff(page, Cards);
    TierCoursesEmptyIff(page, NavLinks);
    TierCoursesEmptyIff(page, CourseLinks);
    TextCoursesEmptyIff(page.bodyText);
  }

  /** The ids of the records are pairwise distinct. */
  lemma ScrapeIdsDistinct(page: Page)
    ensures IdsDistinct(Scrape(page))
  {
    MakeCourseKeepsId();
    var r := Scrape(page);
    if r == TierCourses(page, Cards) {
      SelectedDistinct(Candidates(page, Cards), BlockList(Cards), {}, MakeCourse, |Candidates(page, Cards)|);
    } else if r == TierCourses(page, NavLinks) {
      SelectedDistinct(Candidates(page, NavLinks), BlockList(NavLinks), {}, MakeCourse, |Candidates(page, NavLinks)|);
    } else if r == TierCourses(page, CourseLinks) {
      SelectedDistinct(Candidates(page, CourseLinks), BlockList(CourseLinks), {}, MakeCourse, |Candidates(page, CourseLinks)|);
    } else {
      var u := Distinct(CodeMatches(page.bodyText));
      assert r == TextCourses(page.bodyText);
      forall p, q | 0 <= p < q < |r| ensures r[p].id != r[q].id {
        assert r[p].id == u[p] && r[q].id == u[q];
      }
    }
  }

  /** Each tier-4 record carries the matched text, suffix included, as id, name
      and code, and the placeholder URL. */
  lemma TextCoursesShape(text: string, p: nat)
    requires p < |TextCourses(text)|
    ensures var r := TextCourses(text)[p];
            r.id == r.name == r.code && r.url == PlaceholderUrl
            && IsCodeMatch(r.code) && r.code in CodeMatches(text)
    ensures exists j :: UpperCodeAt(text, j) && TextCourses(text)[p].code == CodeMatchAt(text, j)
  {
    var u := Distinct(CodeMatches(text));
    assert u[p] in u;
    var ms := CodeMatches(text);
    var k :| 0 <= k < |ms| && ms[k] == u[p];
    var j := CodePositions(text, 0)[k];
    assert UpperCodeAt(text, j) && TextCourses(text)[p].code == CodeMatchAt(text, j);
  }

  /** Every code in the text, with its dotted suffix, is the id of a tier-4 record. */
  lemma TextCoursesComplete(text: string, j: nat)
    requires UpperCodeAt(text, j)
    ensures exists p :: 0 <= p < |TextCourses(text)| && TextCourses(text)[p].id == CodeMatchAt(text, j)
  {
    var ps := CodePositions(text, 0);
    var k :| 0 <= k < |ps| && ps[k] == j;
    var ms := CodeMatches(text);
    assert ms[k] == CodeMatchAt(text, j);
    var u := Distinct(ms);
    assert ms[k] in u;
    var p :| 0 <= p < |u| && u[p] == ms[k];
    assert TextCourses(text)[p].id == u[p];
  }

  /** A label containing "enter", "view", "notification" or "starred" (in any
      case) is rejected by every tier. */
  lemma CommonWordsBlockedEverywhere(c: Candidate, tier: Tier, w: nat)
    requires w < |CommonBlockWords| && Contains(ToLower(c.rawName), CommonBlockWords[w])
    ensures !Admissible(Some(c), BlockList(tier))
  {
    var bl := BlockList(tier);
    var k := match tier
      case Cards => w
      case NavLinks => if w < 2 then w else w + 1
      case CourseLinks => if w < 2 then w else w + 3;
    assert bl[k] == CommonBlockWords[w];
  }

  /** Lower-casing a label first changes nothing: the block-list test
      already ignores case. */
  lemma BlockedIgnoresCase(rawName: string, blockList: seq<string>)
    ensures Blocked(ToLower(rawName), blockList) == Blocked(rawName, blockList)
  {
    assert ToLower(ToLower(rawName)) == ToLower(rawName);
  }

  /** A label that mentions "home" but none of the shared words passes tier 1
      and is rejected by tiers 2 and 3. */
  lemma HomeBlockedInLinkTiers(c: Candidate)
    requires |c.rawName| >= 3 && Contains(ToLower(c.rawName), "home")
    requires forall w :: w in CommonBlockWords ==> !Contains(ToLower(c.rawName), w)
    ensures Admissible(Some(c), BlockList(Cards))
    ensures !Admissible(Some(c), BlockList(NavLinks)) && !Admissible(Some(c), BlockList(CourseLinks))
  {
    assert BlockList(NavLinks)[2] == "home";
    assert BlockList(CourseLinks)[3] == "home";
  }

  /** A label that mentions "lihat" or "dashboard" but no other block word
      passes tiers 1 and 2 and is rejected by tier 3. */
  lemma LinkWordsBlockedInTier3(c: Candidate, w: string)
    requires w == "lihat" || w == "dashboard"
    requires |c.rawName| >= 3 && Contains(ToLower(c.rawName), w)
    requires forall x :: x in CommonBlockWords || x == "home" ==> !Contains(ToLower(c.rawName), x)
    ensures Admissible(Some(c), BlockList(Cards)) && Admissible(Some(c), BlockList(NavLinks))
    ensures !Admissible(Some(c), BlockList(CourseLinks))
  {
    var k := if w == "lihat" then 2 else 4;
    assert BlockList(CourseLinks)[k] == w;
  }

  /** The label "Home": a card keeps it, a navigation or course link does not. */
  lemma HomeLabelExample(c: Candidate)
    requires c.rawName == "Home"
    ensures Admissible(Some(c), BlockList(Cards))
    ensures !Admissible(Some(c), BlockList(NavLinks)) && !Admissible(Some(c), BlockList(CourseLinks))
  {
    assert ToLower(c.rawName) == "home";
    assert "home" <= ToLower(c.rawName)[0..];
    assert !Contains("home", "view") by {
      forall k | 0 <= k <= 4 ensures !("view" <= "home"[k..]) {
        assert k == 0 ==> "home"[k..][0] == 'h';
      }
    }
    HomeBlockedInLinkTiers(c);
  }

  /** The labels "Enter" and "View notifications" are never emitted by any tier. */
  lemma BoilerplateNeverEmitted(c: Candidate, tier: Tier)
    requires c.rawName == "Enter" || c.rawName == "View notifications"
    ensures !Admissible(Some(c), BlockList(tier))
  {
    if c.rawName == "Enter" {
      assert "enter" <= ToLower(c.rawName)[0..];
      CommonWordsBlockedEverywhere(c, tier, 0);
    } else {
      assert "view" <= ToLower(c.rawName)[0..];
      CommonWordsBlockedEverywhere(c, tier, 1);
    }
  }

  /** A clean label without a code is its own name, and its first 20
      characters are its code. */
  lemma FallbackCodeOfCleanLabel(c: Candidate)
    requires IsCleanName(c.rawName) && ExtractCourseCode(c.rawName) == None
    ensures MakeCourse(c).name == c.rawName
    ensures MakeCourse(c).code == c.rawName[..if |c.rawName| < 20 then |c.rawName| else 20]
  {
    CleanCourseNameKeepsCleanName(c.rawName);
  }

  /** "Some Long Course Title Without Any Code" has no code, so its code is the
      first 20 characters of its name. */
  lemma FallbackCodeExample(c: Candidate)
    requires c.rawName == "Some Long Course Title Without Any Code"
    ensures MakeCourse(c).code == "Some Long Course Tit"
  {
    LongTitleFacts(c.rawName);
    FallbackCodeOfCleanLabel(c);
    LongTitlePrefix(c.rawName);
  }

  lemma LongTitleFacts(s: string)
    requires s == "Some Long Course Title Without Any Code"
    ensures IsCleanName(s) && ExtractCourseCode(s) == None
  {
    LongTitleIsClean();
    LongTitleHasNoCode();
  }

  lemma LongTitlePrefix(s: string)
    requires s == "Some Long Course Title Without Any Code"
    ensures s[..20] == "Some Long Course Tit"
  {
  }

  lemma LongTitleIsClean()
    ensures IsCleanName("Some Long Course Title Without Any Code")
  {
    LongTitleIsPlain();
    NoPhraseUnlessC("Some Long Course Title Without Any Code");
    PlainNameIsClean("Some Long Course Title Without Any Code");
  }

  lemma LongTitleIsPlain()
    ensures IsPlainName("Some Long Course Title Without Any Code")
  {
    LongTitleLetters();
    LongTitleSingleSpaces();
    PlainNameFromChars("Some Long Course Title Without Any Code");
  }

  lemma LongTitleLetters()
    ensures forall k :: 0 <= k < |"Some Long Course Title Without Any Code"| ==>
              IsLetter("Some Long Course Title Without Any Code"[k])
              || "Some Long Course Title Without Any Code"[k] == ' '
  {
  }

  lemma LongTitleSingleSpaces()
    ensures forall k :: 0 < k < |"Some Long Course Title Without Any Code"| ==>
              "Some Long Course Title Without Any Code"[k - 1] != ' '
              || "Some Long Course Title Without Any Code"[k] != ' '
  {
  }

  lemma LongTitleHasNoCode()
    ensures ExtractCourseCode("Some Long Course Title Without Any Code") == None
  {
  }

  /** Since every tier blocks "starred", a label that passes the filters never
      starts with "Course is starred", so the first rewrite of `cleanCourseName`
      never changes a name the scraper builds. */
  lemma StarredPrefixNeverReached(c: Candidate, tier: Tier)
    requires Admissible(Some(c), BlockList(tier))
    ensures !StartsWithPhrase(c.rawName, StarredPhrase)
    ensures StripLeadingPhrase(c.rawName, StarredPhrase) == c.rawName
  {
    if StartsWithPhrase(c.rawName, StarredPhrase) {
      var low := ToLower(c.rawName);
      assert ToLower(c.rawName[..17]) == StarredPhrase;
      LowerOfPrefix(c.rawName, 17);
      assert low[..17] == StarredPhrase;
      assert StarredPhrase[10..] == "starred";
      assert low[10..17] == "starred";
      assert "starred" <= low[10..];
      CommonWordsBlockedEverywhere(c, tier, 3);
    }
  }

  /** Lower-casing commutes with taking a prefix. */
  lemma LowerOfPrefix(s: string, n: nat)
    requires n <= |s|
    ensures ToLower(s)[..n] == ToLower(s[..n])
  {
  }
}
