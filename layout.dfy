/** The layout engine of the résumé endpoint: it reads the query fields,
    draws the identity block, the summary, the areas of expertise, the
    professional experience and the education, in that order, and threads
    one vertical cursor (`yPos`) through all of them. Nothing checks the
    cursor against the page height. */
module Layout {
  import opened Text
  import opened Drawing
  import opened Wrap

  datatype Option<T> = None | Some(value: T)

  /** The outcome of building the document: the value, or the name of the
      query field whose absence made the build throw (a `null` handed to
      `split` or to the document's `text`). */
  datatype Result<T> = Ok(value: T) | Err(missing: string)

  /** The query string: field name to value; an absent field is a missing key. */
  type Query = map<string, string>

  const NameFont: Font := Font(18, Bold)
  const HeadingFont: Font := Font(14, Bold)
  const TitleFont: Font := Font(10, Bold)
  /** The bullet prefix of expertise items and description lines. */
  const Bullet: string := "\U{2022} "

  /** `searchParams.get(key)`: the value, or `null` when the field is absent. */
  function Get(q: Query, key: string): (v: Option<string>)
    ensures v.Some? <==> key in q
    ensures v.Some? ==> v.value == q[key]
  {
    if key in q then Some(q[key]) else None
  }

  /** JavaScript truthiness of `searchParams.get(key)`: present and not "". */
  predicate Truthy(q: Query, key: string)
  {
    key in q && q[key] != ""
  }

  /** `${v}` in a template string: an absent field prints as "null". */
  function Interpolate(v: Option<string>): string
  {
    match v
    case Some(s) => s
    case None => "null"
  }

  /** The name of field `prefix` of the `n`-th entry of a repeated group,
      as `${prefix}${n}` builds it. */
  function Key(prefix: string, n: nat): string
  {
    prefix + Decimal(n)
  }

  /** Distinct entries of a group read distinct fields. */
  lemma KeyInjective(prefix: string, n: nat, m: nat)
    requires Key(prefix, n) == Key(prefix, m)
    ensures n == m
  {
    assert Decimal(n) == Key(prefix, n)[|prefix|..];
    assert Decimal(m) == Key(prefix, m)[|prefix|..];
    DecimalInjective(n, m);
  }

  /** Field `prefix` of entry `n`: `searchParams.get(`${prefix}${n}`)`. */
  function Field(q: Query, prefix: string, n: nat): (v: Option<string>)
    ensures v.Some? <==> Key(prefix, n) in q
  {
    Get(q, Key(prefix, n))
  }

  /** Field `prefix` of entry `n` is truthy: the test of the probing loops. */
  predicate Present(q: Query, prefix: string, n: nat)
  {
    Truthy(q, Key(prefix, n))
  }

  /** The identity fields, in drawing order. */
  const IdentityKeys: seq<string> := ["fullName", "email", "phone", "linkedin", "location"]

  // ---------------------------------------------------------------------
  // Repeated groups

  /** One work entry, as read from fields `jobTitle{n}`, `company{n}`,
      `startDate{n}`, `endDate{n}` and `description{n}`. */
  datatype Job = Job(title: Option<string>, company: Option<string>, startDate: Option<string>,
                     endDate: Option<string>, description: Option<string>)

  /** One education entry, from `degree{n}`, `university{n}`,
      `eduStartDate{n}` and `eduEndDate{n}`. */
  datatype Degree = Degree(degree: Option<string>, university: Option<string>,
                           startDate: Option<string>, endDate: Option<string>)

  function JobAt(q: Query, n: nat): Job
  {
    Job(Field(q, "jobTitle", n), Field(q, "company", n), Field(q, "startDate", n),
        Field(q, "endDate", n), Field(q, "description", n))
  }

  function DegreeAt(q: Query, n: nat): Degree
  {
    Degree(Field(q, "degree", n), Field(q, "university", n),
           Field(q, "eduStartDate", n), Field(q, "eduEndDate", n))
  }

  /** Entries 1..n of the work group, in index order. */
  function JobsUpTo(q: Query, n: nat): (jobs: seq<Job>)
    ensures |jobs| == n
  {
    if n == 0 then [] else JobsUpTo(q, n - 1) + [JobAt(q, n)]
  }

  /** Position `i` holds entry `i + 1`. */
  lemma {:induction false} JobsUpToAt(q: Query, n: nat, i: nat)
    requires i < n
    ensures JobsUpTo(q, n)[i] == JobAt(q, i + 1)
  {
    if i < n - 1 {
      JobsUpToAt(q, n - 1, i);
    }
  }

  /** Entries 1..n of the education group, in index order. */
  function DegreesUpTo(q: Query, n: nat): (degrees: seq<Degree>)
    ensures |degrees| == n
  {
    if n == 0 then [] else DegreesUpTo(q, n - 1) + [DegreeAt(q, n)]
  }

  /** Position `i` holds entry `i + 1`. */
  lemma {:induction false} DegreesUpToAt(q: Query, n: nat, i: nat)
    requires i < n
    ensures DegreesUpTo(q, n)[i] == DegreeAt(q, i + 1)
  {
    if i < n - 1 {
      DegreesUpToAt(q, n - 1, i);
    }
  }

  /** `n` is the number of entries a probing loop over `prefix{1}`,
      `prefix{2}`, ... renders: indices 1..n are truthy and `n + 1` is the
      first that is not. */
  ghost predicate FirstGap(q: Query, prefix: string, n: nat)
  {
    && (forall j :: 1 <= j <= n ==> Present(q, prefix, j))
    && !Present(q, prefix, n + 1)
  }

  /** The first gap is unique, so the number of rendered entries is
      determined by the query: with entries 1 and 2 present and entry 3
      absent exactly two are rendered, whatever follows index 3. */
  lemma FirstGapUnique(q: Query, prefix: string, n: nat, m: nat)
    requires FirstGap(q, prefix, n) && FirstGap(q, prefix, m)
    ensures n == m
  {
  }

  /** An upper bound on the length of every key of a finite query. */
  ghost function MaxKeyLength(keys: set<string>): (m: nat)
    ensures forall k :: k in keys ==> |k| <= m
    decreases keys
  {
    if keys == {} then 0
    else
      var k :| k in keys;
      var m := MaxKeyLength(keys - {k});
      if |k| > m then |k| else m
  }

  /** Only finitely many indices of a group can be present: an index with
      as many digits as the longest key cannot name a present field. This
      bounds the probing loops. */
  lemma KeyIndexBound(q: Query, prefix: string, n: nat)
    requires Present(q, prefix, n)
    ensures n < Pow10(MaxKeyLength(q.Keys))
  {
    var bound := MaxKeyLength(q.Keys);
    if n >= Pow10(bound) {
      DecimalLength(n, bound);
    }
  }
  /** A bound for the probing loop over `prefix`: every index whose key
      is present lies below it. */
  lemma ProbeBound(q: Query, prefix: string) returns (bound: nat)
    ensures bound >= 1
    ensures forall n: nat :: Present(q, prefix, n) ==> n < bound
  {
    bound := Pow10(MaxKeyLength(q.Keys));
    forall n: nat | Present(q, prefix, n)
      ensures n < bound
    {
      KeyIndexBound(q, prefix, n);
    }
  }


  // ---------------------------------------------------------------------
  // What each section places, and where

  /** The "`${company} | ${startDate} - ${endDate}`" line of an entry. */
  function Dates(org: Option<string>, start: Option<string>, end: Option<string>): string
  {
    Interpolate(org) + " | " + Interpolate(start) + " - " + Interpolate(end)
  }

  /** Body-font lines, 5 apart from `y` down, each with `prefix`. */
  function Column(lines: seq<string>, x: int, y: int, prefix: string): (ps: seq<Placement>)
    ensures |ps| == |lines|
    decreases |lines|
  {
    if lines == [] then []
    else
      Column(lines[..|lines| - 1], x, y, prefix)
        + [Placement(x, y + 5 * (|lines| - 1), prefix + lines[|lines| - 1], BodyFont, Left)]
  }

  /** Line `i` of a column is at `x`, `5 * i` below `y`, in the body font,
      with its prefix. */
  lemma {:induction false} ColumnAt(lines: seq<string>, x: int, y: int, prefix: string, i: int)
    requires 0 <= i < |lines|
    ensures Column(lines, x, y, prefix)[i] == Placement(x, y + 5 * i, prefix + lines[i], BodyFont, Left)
    decreases |lines|
  {
    var init := lines[..|lines| - 1];
    if i < |lines| - 1 {
      ColumnAt(init, x, y, prefix, i);
      assert init[i] == lines[i];
    }
  }

  /** A section heading: drawn one gap below the cursor `y`; the cursor
      then moves one more gap down (to `y + 10`). */
  function Heading(caption: string, y: int): seq<Placement>
  {
    [Placement(Margin, y + 5, caption, HeadingFont, Left)]
  }

  function IdentityBlock(q: Query): seq<Placement>
    requires forall k :: k in IdentityKeys ==> k in q
  {
    [ Placement(Margin, 20, q["fullName"], NameFont, Left),
      Placement(Margin, 30, q["email"], BodyFont, Left),
      Placement(Margin, 35, q["phone"], BodyFont, Left),
      Placement(Margin, 40, q["linkedin"], BodyFont, Left),
      Placement(Margin, 45, q["location"], BodyFont, Left) ]
  }

  /** The summary is wrapped to the body width in the heading font, which
      is the font the "Summary" heading left active. */
  function SummaryLines(summary: string, pageWidth: int, measure: Measure): seq<string>
  {
    WrapLines(summary, pageWidth - 2 * Margin, measure, HeadingFont)
  }

  /** The "Summary" heading at the fixed height 55, then the summary lines
      from the cursor's starting value 60. */
  function SummaryBlock(summary: string, pageWidth: int, measure: Measure): seq<Placement>
  {
    [Placement(Margin, 55, "Summary", HeadingFont, Left)]
      + Column(SummaryLines(summary, pageWidth, measure), Margin, 60, "")
  }

  /** The comma-separated expertise items, each trimmed: one item per
      piece of the split, so one more than there are commas. */
  function ExpertiseItems(expertise: string): (items: seq<string>)
    ensures |items| == |Split(expertise, ',')| == multiset(expertise)[','] + 1
  {
    SplitCount(expertise, ',');
    TrimEach(Split(expertise, ','))
  }

  /** `parts.map(s => s.trim())`. */
  function TrimEach(parts: seq<string>): (items: seq<string>)
    ensures |items| == |parts|
    decreases |parts|
  {
    if parts == [] then []
    else TrimEach(parts[..|parts| - 1]) + [Trim(parts[|parts| - 1])]
  }

  lemma {:induction false} TrimEachAt(parts: seq<string>, i: int)
    requires 0 <= i < |parts|
    ensures TrimEach(parts)[i] == Trim(parts[i])
    decreases |parts|
  {
    var init := parts[..|parts| - 1];
    assert TrimEach(parts) == TrimEach(init) + [Trim(parts[|parts| - 1])];
    if i < |parts| - 1 {
      TrimEachAt(init, i);
      assert init[i] == parts[i];
    }
  }

  /** Item `i` is piece `i` of the split with the whitespace around it
      removed, and it has no comma. */
  lemma ExpertiseItemAt(expertise: string, i: int)
    requires 0 <= i < |ExpertiseItems(expertise)|
    ensures ExpertiseItems(expertise)[i] == Trim(Split(expertise, ',')[i])
    ensures ',' !in ExpertiseItems(expertise)[i]
  {
    var piece := Split(expertise, ',');
    TrimEachAt(piece, i);
    TrimKeepsOut(piece[i], ',');
  }

  /** The "Areas of Expertise" heading, then one bulleted line per item. */
  function ExpertiseBlock(items: seq<string>, y: int): seq<Placement>
  {
    Heading("Areas of Expertise", y) + Column(items, Margin + 5, y + 10, Bullet)
  }

  /** A description is wrapped to the body width less the bullet indent, in
      the body font the entry's dates line left active. */
  function JobLines(job: Job, pageWidth: int, measure: Measure): seq<string>
    requires job.description.Some?
  {
    WrapLines(job.description.value, pageWidth - 2 * Margin - 10, measure, BodyFont)
  }

  /** How far one work entry moves the cursor: title, dates line, one line
      per description line, and a gap. */
  function JobHeight(job: Job, pageWidth: int, measure: Measure): int
    requires job.description.Some?
  {
    5 + 5 + 5 * |JobLines(job, pageWidth, measure)| + 5
  }

  ghost predicate Renderable(jobs: seq<Job>)
  {
    forall i :: 0 <= i < |jobs| ==> jobs[i].title.Some? && jobs[i].description.Some?
  }

  function JobBlock(job: Job, y: int, pageWidth: int, measure: Measure): seq<Placement>
    requires job.title.Some? && job.description.Some?
  {
    [ Placement(Margin, y, job.title.value, TitleFont, Left),
      Placement(Margin, y + 5, Dates(job.company, job.startDate, job.endDate), BodyFont, Left) ]
      + Column(JobLines(job, pageWidth, measure), Margin + 10, y + 10, Bullet)
  }

  function JobsHeight(jobs: seq<Job>, pageWidth: int, measure: Measure): int
    requires Renderable(jobs)
  {
    if jobs == [] then 0
    else JobsHeight(jobs[..|jobs| - 1], pageWidth, measure) + JobHeight(jobs[|jobs| - 1], pageWidth, measure)
  }

  /** The work entries one below the other from cursor `y`. */
  function JobsBlock(jobs: seq<Job>, y: int, pageWidth: int, measure: Measure): seq<Placement>
    requires Renderable(jobs)
  {
    if jobs == [] then []
    else
      var before := jobs[..|jobs| - 1];
      JobsBlock(before, y, pageWidth, measure)
        + JobBlock(jobs[|jobs| - 1], y + JobsHeight(before, pageWidth, measure), pageWidth, measure)
  }

  /** The experience section from cursor `y`: heading, then the entries. */
  function ExperienceSection(jobs: seq<Job>, y: int, pageWidth: int, measure: Measure): seq<Placement>
    requires Renderable(jobs)
  {
    Heading("Professional Experience", y) + JobsBlock(jobs, y + 10, pageWidth, measure)
  }

  /** An education entry: degree and dates line; it moves the cursor by 15. */
  function DegreeBlock(d: Degree, y: int): seq<Placement>
    requires d.degree.Some?
  {
    [ Placement(Margin, y, d.degree.value, TitleFont, Left),
      Placement(Margin, y + 5, Dates(d.university, d.startDate, d.endDate), BodyFont, Left) ]
  }

  function DegreesBlock(ds: seq<Degree>, y: int): seq<Placement>
    requires Drawable(ds)
  {
    if ds == [] then []
    else
      DegreesBlock(ds[..|ds| - 1], y) + DegreeBlock(ds[|ds| - 1], y + 15 * (|ds| - 1))
  }

  /** The education section from cursor `y`: heading, then the entries. */
  function EducationSection(ds: seq<Degree>, y: int): seq<Placement>
    requires Drawable(ds)
  {
    Heading("Education", y) + DegreesBlock(ds, y + 10)
  }

  /** The fields the build reads unconditionally and throws without. */
  ghost predicate ScalarsPresent(q: Query)
  {
    (forall k :: k in IdentityKeys ==> k in q) && "summary" in q && "expertise" in q
  }

  /** Entries 1..n of the work group can be drawn: each has a truthy
      title and a description. */
  ghost predicate JobsPresent(q: Query, n: nat)
  {
    forall j :: 1 <= j <= n ==> Present(q, "jobTitle", j) && Field(q, "description", j).Some?
  }

  /** Entry `k` with a truthy title and a description extends the drawable prefix. */
  lemma JobsPresentStep(q: Query, k: nat)
    requires k >= 1 && JobsPresent(q, k - 1)
    requires Present(q, "jobTitle", k) && JobAt(q, k).description.Some?
    ensures JobsPresent(q, k) && JobsUpTo(q, k) == JobsUpTo(q, k - 1) + [JobAt(q, k)]
  {
  }

  lemma JobsPresentRenderable(q: Query, n: nat)
    requires JobsPresent(q, n)
    ensures Renderable(JobsUpTo(q, n))
  {
    forall i | 0 <= i < n
      ensures JobsUpTo(q, n)[i].title.Some? && JobsUpTo(q, n)[i].description.Some?
    {
      JobsUpToAt(q, n, i);
      assert Present(q, "jobTitle", i + 1);
    }
  }

  /** Entries 1..n of the education group have a truthy degree. */
  ghost predicate DegreesPresent(q: Query, n: nat)
  {
    forall j :: 1 <= j <= n ==> Present(q, "degree", j)
  }

  ghost predicate Drawable(ds: seq<Degree>)
  {
    forall i :: 0 <= i < |ds| ==> ds[i].degree.Some?
  }

  lemma DegreesPresentDrawable(q: Query, n: nat)
    requires DegreesPresent(q, n)
    ensures Drawable(DegreesUpTo(q, n))
  {
    forall i | 0 <= i < n
      ensures DegreesUpTo(q, n)[i].degree.Some?
    {
      DegreesUpToAt(q, n, i);
      assert Present(q, "degree", i + 1);
    }
  }

  /** The cursor after each section: summary, expertise, experience. */
  function AfterSummary(q: Query, pageWidth: int, measure: Measure): int
    requires "summary" in q
  {
    60 + 5 * |SummaryLines(q["summary"], pageWidth, measure)|
  }

  function AfterExpertise(q: Query, pageWidth: int, measure: Measure): int
    requires "summary" in q && "expertise" in q
  {
    AfterSummary(q, pageWidth, measure) + 10 + 5 * |ExpertiseItems(q["expertise"])|
  }

  function AfterExperience(q: Query, pageWidth: int, measure: Measure, jobs: nat): int
    requires ScalarsPresent(q) && JobsPresent(q, jobs)
  {
    JobsPresentRenderable(q, jobs);
    AfterExpertise(q, pageWidth, measure) + 10
      + JobsHeight(JobsUpTo(q, jobs), pageWidth, measure)
  }

  /** The whole page, section after section. */
  function Document(q: Query, pageWidth: int, measure: Measure, jobs: nat, degrees: nat): seq<Placement>
    requires ScalarsPresent(q) && JobsPresent(q, jobs)
    requires DegreesPresent(q, degrees)
  {
    JobsPresentRenderable(q, jobs);
    DegreesPresentDrawable(q, degrees);
    var y1 := AfterSummary(q, pageWidth, measure);
    var y2 := AfterExpertise(q, pageWidth, measure);
    var y3 := AfterExperience(q, pageWidth, measure, jobs);
    IdentityBlock(q)
      + SummaryBlock(q["summary"], pageWidth, measure)
      + ExpertiseBlock(ExpertiseItems(q["expertise"]), y1)
      + ExperienceSection(JobsUpTo(q, jobs), y2, pageWidth, measure)
      + EducationSection(DegreesUpTo(q, degrees), y3)
  }

  // ---------------------------------------------------------------------
  // The page is drawn top to bottom

  /** Every string of `ps` lies in the band `[lo, hi)` of heights, and the
      heights strictly increase in drawing order: no string is drawn above
      or level with an earlier one. */
  ghost predicate Band(ps: seq<Placement>, lo: int, hi: int)
  {
    && (forall i :: 0 <= i < |ps| ==> lo <= ps[i].y < hi)
    && (forall i, j :: 0 <= i < j < |ps| ==> ps[i].y < ps[j].y)
  }

  /** `Band`, one string at a time: the first string lies in `[lo, hi)` and
      the rest lie strictly below it. */
  ghost predicate Stacked(ps: seq<Placement>, lo: int, hi: int)
    decreases |ps|
  {
    ps == [] || (lo <= ps[0].y < hi && Stacked(ps[1..], ps[0].y + 1, hi))
  }

  lemma {:induction false} StackedIsBand(ps: seq<Placement>, lo: int, hi: int)
    requires Stacked(ps, lo, hi)
    ensures Band(ps, lo, hi)
    decreases |ps|
  {
    if ps != [] {
      var rest := ps[1..];
      StackedIsBand(rest, ps[0].y + 1, hi);
      forall i | 0 < i < |ps|
        ensures ps[0].y < ps[i].y < hi
      {
        assert ps[i] == rest[i - 1];
      }
      forall i, j | 0 < i < j < |ps|
        ensures ps[i].y < ps[j].y
      {
        assert ps[i] == rest[i - 1] && ps[j] == rest[j - 1];
      }
    }
  }

  lemma {:induction false} BandIsStacked(ps: seq<Placement>, lo: int, hi: int)
    requires Band(ps, lo, hi)
    ensures Stacked(ps, lo, hi)
    decreases |ps|
  {
    if ps != [] {
      var rest := ps[1..];
      forall i | 0 <= i < |rest|
        ensures ps[0].y + 1 <= rest[i].y < hi
      {
        assert rest[i] == ps[i + 1];
      }
      forall i, j | 0 <= i < j < |rest|
        ensures rest[i].y < rest[j].y
      {
        assert rest[i] == ps[i + 1] && rest[j] == ps[j + 1];
      }
      BandIsStacked(rest, ps[0].y + 1, hi);
    }
  }

  /** A stacked block followed by one stacked below it is stacked. */
  lemma {:induction false} StackedAppend(a: seq<Placement>, b: seq<Placement>, lo: int, mid: int, hi: int)
    requires Stacked(a, lo, mid) && Stacked(b, mid, hi) && lo <= mid <= hi
    ensures Stacked(a + b, lo, hi)
    decreases |a|
  {
    if a == [] {
      assert a + b == b;
    } else {
      StackedAppend(a[1..], b, a[0].y + 1, mid, hi);
      assert (a + b)[1..] == a[1..] + b;
    }
  }

  lemma {:induction false} StackedWiden(ps: seq<Placement>, lo: int, hi: int, hi': int)
    requires Stacked(ps, lo, hi) && hi <= hi'
    ensures Stacked(ps, lo, hi')
    decreases |ps|
  {
    if ps != [] {
      StackedWiden(ps[1..], ps[0].y + 1, hi, hi');
    }
  }

  /** A column of lines advances 5 per line. */
  lemma {:induction false} ColumnStacked(lines: seq<string>, x: int, y: int, prefix: string)
    ensures Stacked(Column(lines, x, y, prefix), y, y + 5 * |lines|)
    decreases |lines|
  {
    if lines != [] {
      var n := |lines| - 1;
      var last := [Placement(x, y + 5 * n, prefix + lines[n], BodyFont, Left)];
      ColumnStacked(lines[..n], x, y, prefix);
      assert last[1..] == [];
      StackedAppend(Column(lines[..n], x, y, prefix), last, y, y + 5 * n, y + 5 * |lines|);
    }
  }

  lemma HeadingStacked(caption: string, y: int)
    ensures Stacked(Heading(caption, y), y, y + 10)
  {
    assert Heading(caption, y)[1..] == [];
  }

  /** A work entry fills exactly the height it moves the cursor by. */
  lemma JobBlockStacked(job: Job, y: int, pageWidth: int, measure: Measure)
    requires job.title.Some? && job.description.Some?
    ensures Stacked(JobBlock(job, y, pageWidth, measure), y, y + JobHeight(job, pageWidth, measure))
  {
    var lines := JobLines(job, pageWidth, measure);
    var head := [ Placement(Margin, y, job.title.value, TitleFont, Left),
                  Placement(Margin, y + 5, Dates(job.company, job.startDate, job.endDate), BodyFont, Left) ];
    var hi := y + JobHeight(job, pageWidth, measure);
    assert head[1..][1..] == [];
    ColumnStacked(lines, Margin + 10, y + 10, Bullet);
    StackedWiden(Column(lines, Margin + 10, y + 10, Bullet), y + 10, y + 10 + 5 * |lines|, hi);
    StackedAppend(head, Column(lines, Margin + 10, y + 10, Bullet), y, y + 10, hi);
  }

  lemma {:induction false} JobsBlockStacked(jobs: seq<Job>, y: int, pageWidth: int, measure: Measure)
    requires Renderable(jobs)
    ensures JobsHeight(jobs, pageWidth, measure) >= 0
    ensures Stacked(JobsBlock(jobs, y, pageWidth, measure), y, y + JobsHeight(jobs, pageWidth, measure))
    decreases |jobs|
  {
    if jobs != [] {
      var before := jobs[..|jobs| - 1];
      var last := jobs[|jobs| - 1];
      var mid := y + JobsHeight(before, pageWidth, measure);
      assert Renderable(before);
      JobsBlockStacked(before, y, pageWidth, measure);
      JobBlockStacked(last, mid, pageWidth, measure);
      StackedAppend(JobsBlock(before, y, pageWidth, measure), JobBlock(last, mid, pageWidth, measure),
                    y, mid, mid + JobHeight(last, pageWidth, measure));
    }
  }

  lemma DegreeBlockStacked(d: Degree, y: int)
    requires d.degree.Some?
    ensures Stacked(DegreeBlock(d, y), y, y + 15)
  {
    assert DegreeBlock(d, y)[1..][1..] == [];
  }

  lemma {:induction false} DegreesBlockStacked(ds: seq<Degree>, y: int)
    requires Drawable(ds)
    ensures Stacked(DegreesBlock(ds, y), y, y + 15 * |ds|)
    decreases |ds|
  {
    if ds != [] {
      var before := ds[..|ds| - 1];
      var mid := y + 15 * |before|;
      assert Drawable(before);
      DegreesBlockStacked(before, y);
      DegreeBlockStacked(ds[|ds| - 1], mid);
      StackedAppend(DegreesBlock(before, y), DegreeBlock(ds[|ds| - 1], mid), y, mid, mid + 15);
    }
  }

  lemma IdentityStacked(q: Query)
    requires forall k :: k in IdentityKeys ==> k in q
    ensures Stacked(IdentityBlock(q), 20, 50) && IdentityBlock(q)[0].y == 20
  {
    assert Band(IdentityBlock(q), 20, 50);
    BandIsStacked(IdentityBlock(q), 20, 50);
  }

  lemma SummaryStacked(summary: string, pageWidth: int, measure: Measure, hi: int)
    requires hi == 60 + 5 * |SummaryLines(summary, pageWidth, measure)|
    ensures Stacked(SummaryBlock(summary, pageWidth, measure), 50, hi)
  {
    var lines := SummaryLines(summary, pageWidth, measure);
    var heading := [Placement(Margin, 55, "Summary", HeadingFont, Left)];
    assert heading[1..] == [];
    ColumnStacked(lines, Margin, 60, "");
    StackedAppend(heading, Column(lines, Margin, 60, ""), 50, 60, hi);
  }

  lemma ExpertiseStacked(items: seq<string>, y: int, hi: int)
    requires hi == y + 10 + 5 * |items|
    ensures Stacked(ExpertiseBlock(items, y), y, hi)
  {
    HeadedColumnStacked("Areas of Expertise", items, Margin + 5, y);
  }

  lemma HeadedColumnStacked(caption: string, lines: seq<string>, x: int, y: int)
    ensures Stacked(Heading(caption, y) + Column(lines, x, y + 10, Bullet), y, y + 10 + 5 * |lines|)
  {
    HeadingStacked(caption, y);
    ColumnStacked(lines, x, y + 10, Bullet);
    StackedAppend(Heading(caption, y), Column(lines, x, y + 10, Bullet), y, y + 10, y + 10 + 5 * |lines|);
  }

  lemma ExperienceStacked(jobs: seq<Job>, y: int, pageWidth: int, measure: Measure, hi: int)
    requires Renderable(jobs) && hi == y + 10 + JobsHeight(jobs, pageWidth, measure)
    ensures Stacked(ExperienceSection(jobs, y, pageWidth, measure), y, hi)
  {
    HeadingStacked("Professional Experience", y);
    JobsBlockStacked(jobs, y + 10, pageWidth, measure);
    StackedAppend(Heading("Professional Experience", y), JobsBlock(jobs, y + 10, pageWidth, measure),
                  y, y + 10, hi);
  }

  lemma EducationStacked(ds: seq<Degree>, y: int, hi: int)
    requires Drawable(ds) && hi == y + 10 + 15 * |ds|
    ensures Stacked(EducationSection(ds, y), y, hi)
  {
    HeadingStacked("Education", y);
    DegreesBlockStacked(ds, y + 10);
    StackedAppend(Heading("Education", y), DegreesBlock(ds, y + 10), y, y + 10, hi);
  }

  /** The cursor after the education section: where a further section
      would start. */
  function AfterEducation(q: Query, pageWidth: int, measure: Measure, jobs: nat, degrees: nat): int
    requires ScalarsPresent(q) && JobsPresent(q, jobs)
  {
    AfterExperience(q, pageWidth, measure, jobs) + 10 + 15 * degrees
  }

  /** The whole page is drawn top to bottom: the first string is the name
      at height 20, heights strictly increase from one string to the next,
      and every string lies above the final cursor position. */
  lemma DocumentBand(q: Query, pageWidth: int, measure: Measure, jobs: nat, degrees: nat)
    requires ScalarsPresent(q) && JobsPresent(q, jobs) && DegreesPresent(q, degrees)
    ensures Band(Document(q, pageWidth, measure, jobs, degrees), 20,
                 AfterEducation(q, pageWidth, measure, jobs, degrees))
    ensures Document(q, pageWidth, measure, jobs, degrees)[0].y == 20
  {
    DocumentStacked(q, pageWidth, measure, jobs, degrees);
    StackedIsBand(Document(q, pageWidth, measure, jobs, degrees), 20,
                  AfterEducation(q, pageWidth, measure, jobs, degrees));
  }

  lemma DocumentStacked(q: Query, pageWidth: int, measure: Measure, jobs: nat, degrees: nat)
    requires ScalarsPresent(q) && JobsPresent(q, jobs) && DegreesPresent(q, degrees)
    ensures Stacked(Document(q, pageWidth, measure, jobs, degrees), 20,
                    AfterEducation(q, pageWidth, measure, jobs, degrees))
    ensures |Document(q, pageWidth, measure, jobs, degrees)| > 0
    ensures Document(q, pageWidth, measure, jobs, degrees)[0].y == 20
  {
    JobsPresentRenderable(q, jobs);
    DegreesPresentDrawable(q, degrees);
    var js := JobsUpTo(q, jobs);
    var ds := DegreesUpTo(q, degrees);
    var y1 := AfterSummary(q, pageWidth, measure);
    var y2 := AfterExpertise(q, pageWidth, measure);
    var y3 := AfterExperience(q, pageWidth, measure, jobs);
    var y4 := AfterEducation(q, pageWidth, measure, jobs, degrees);
    AfterOrder(q, pageWidth, measure, jobs, degrees);
    assert y1 == 60 + 5 * |SummaryLines(q["summary"], pageWidth, measure)|;
    assert y2 == y1 + 10 + 5 * |ExpertiseItems(q["expertise"])|;
    assert y3 == y2 + 10 + JobsHeight(js, pageWidth, measure);
    assert y4 == y3 + 10 + 15 * |ds|;
    IdentityStacked(q);
    SummaryStacked(q["summary"], pageWidth, measure, y1);
    ExpertiseStacked(ExpertiseItems(q["expertise"]), y1, y2);
    ExperienceStacked(js, y2, pageWidth, measure, y3);
    EducationStacked(ds, y3, y4);
    StackedChain(IdentityBlock(q), SummaryBlock(q["summary"], pageWidth, measure),
                 ExpertiseBlock(ExpertiseItems(q["expertise"]), y1), ExperienceSection(js, y2, pageWidth, measure),
                 EducationSection(ds, y3), y1, y2, y3, y4);
  }

  /** Each section ends no higher than it starts. */
  lemma AfterOrder(q: Query, pageWidth: int, measure: Measure, jobs: nat, degrees: nat)
    requires ScalarsPresent(q) && JobsPresent(q, jobs)
    ensures 50 <= AfterSummary(q, pageWidth, measure) <= AfterExpertise(q, pageWidth, measure)
    ensures AfterExpertise(q, pageWidth, measure) <= AfterExperience(q, pageWidth, measure, jobs)
    ensures AfterExperience(q, pageWidth, measure, jobs) <= AfterEducation(q, pageWidth, measure, jobs, degrees)
  {
    JobsPresentRenderable(q, jobs);
    JobsBlockStacked(JobsUpTo(q, jobs), 0, pageWidth, measure);
  }

  /** Five sections stacked in consecutive bands are stacked from the top
      of the first to the bottom of the last. */
  lemma StackedChain(a: seq<Placement>, b: seq<Placement>, c: seq<Placement>, d: seq<Placement>,
                     e: seq<Placement>, y1: int, y2: int, y3: int, y4: int)
    requires Stacked(a, 20, 50) && Stacked(b, 50, y1) && Stacked(c, y1, y2)
    requires Stacked(d, y2, y3) && Stacked(e, y3, y4)
    requires 50 <= y1 <= y2 <= y3 <= y4
    ensures Stacked(a + b + c + d + e, 20, y4)
    ensures a != [] ==> (a + b + c + d + e)[0] == a[0]
  {
    StackedAppend(a, b, 20, 50, y1);
    StackedAppend(a + b, c, 20, y1, y2);
    StackedAppend(a + b + c, d, 20, y2, y3);
    StackedAppend(a + b + c + d, e, 20, y3, y4);
  }

  // ---------------------------------------------------------------------
  // The engine

  /** The built page and the number of entries of each group it shows. */
  datatype Rendered = Rendered(placements: seq<Placement>, jobs: nat, degrees: nat)

  /** Draws `lines`, each prefixed, at `x` from cursor `y0` down, one line
      height apart, in the body font (the `forEach` loops). */
  method DrawColumn(doc: Doc, lines: seq<string>, x: int, y0: int, prefix: string) returns (y: int)
    modifies doc
    ensures doc.placements == old(doc.placements) + Column(lines, x, y0, prefix)
    ensures y == y0 + 5 * |lines|
    ensures doc.font == if lines == [] then old(doc.font) else BodyFont
  {
    y := y0;
    for i := 0 to |lines|
      invariant doc.placements == old(doc.placements) + Column(lines[..i], x, y0, prefix)
      invariant y == y0 + 5 * i
      invariant doc.font == if i == 0 then old(doc.font) else BodyFont
    {
      doc.Text(x, y, prefix + lines[i], Left, 10, Normal);
      assert lines[..i + 1][..i] == lines[..i];
      y := y + 5;
    }
    assert lines[..|lines|] == lines;
  }

  /** A section heading after a one-gap space; returns the cursor below it. */
  method DrawHeading(doc: Doc, caption: string, y0: int) returns (y: int)
    modifies doc
    ensures doc.placements == old(doc.placements) + Heading(caption, y0)
    ensures y == y0 + 10
    ensures doc.font == HeadingFont
  {
    y := y0 + 5;
    doc.Text(Margin, y, caption, Left, 14, Bold);
    y := y + 5;
  }

  /** One work entry at cursor `y0` (index.js lines 83-101): title, dates
      line, and the wrapped description as bullets, then a gap. A missing
      description throws once the two first lines are drawn. */
  method DrawJob(doc: Doc, job: Job, y0: int, measure: Measure) returns (r: Result<int>)
    requires job.title.Some?
    modifies doc
    ensures r.Err? <==> job.description.None?
    ensures r.Ok? ==>
      && doc.placements == old(doc.placements) + JobBlock(job, y0, doc.pageWidth, measure)
      && r.value == y0 + JobHeight(job, doc.pageWidth, measure)
  {
    var y := y0;
    doc.Text(Margin, y, job.title.value, Left, 10, Bold);
    y := y + 5;
    doc.Text(Margin, y, Dates(job.company, job.startDate, job.endDate), Left, 10, Normal);
    y := y + 5;
    if job.description.None? {
      return Err("description");
    }
    var descLines := WrapDescription(job, doc.pageWidth, measure, doc.font);
    y := DrawColumn(doc, descLines, Margin + 10, y, Bullet);
    y := y + 5;
    return Ok(y);
  }

  /** The description of `job` wrapped to the body width less the bullet
      indent, in the active `font`. */
  method WrapDescription(job: Job, pageWidth: int, measure: Measure, font: Font) returns (lines: seq<string>)
    requires job.description.Some?
    ensures lines == WrapLines(job.description.value, pageWidth - 2 * Margin - 10, measure, font)
  {
    lines := WrapText(job.description.value, pageWidth - 2 * Margin - 10, measure, font);
  }

  /** The experience section (index.js lines 76-102): the heading, then
      the probing loop over `jobTitle1`, `jobTitle2`, ..., drawing each
      entry until the first absent or empty title. */
  method DrawExperience(doc: Doc, q: Query, y0: int, measure: Measure) returns (r: Result<(nat, int)>)
    modifies doc
    ensures r.Ok? ==>
      && FirstGap(q, "jobTitle", r.value.0)
      && JobsPresent(q, r.value.0)
      && Renderable(JobsUpTo(q, r.value.0))
      && doc.placements == old(doc.placements)
           + ExperienceSection(JobsUpTo(q, r.value.0), y0, doc.pageWidth, measure)
      && r.value.1 == y0 + 10 + JobsHeight(JobsUpTo(q, r.value.0), doc.pageWidth, measure)
    ensures r.Err? ==> exists n :: MissingDescription(q, n, r.missing)
  {
    var y := DrawHeading(doc, "Professional Experience", y0);
    var n, end, missing := DrawJobs(doc, q, y, measure);
    if missing.Some? {
      return Err(missing.value);
    }
    Associative(old(doc.placements), Heading("Professional Experience", y0),
                JobsBlock(JobsUpTo(q, n), y, doc.pageWidth, measure));
    r := Ok((n, end));
  }

  /** The probing loop of the experience section: entries `jobTitle1`,
      `jobTitle2`, ... are drawn from `y0` down until the first absent or
      empty title; an entry without its description stops the build. */
  method DrawJobs(doc: Doc, q: Query, y0: int, measure: Measure) returns (n: nat, y: int, missing: Option<string>)
    modifies doc
    ensures missing.Some? ==> MissingDescription(q, n + 1, missing.value)
    ensures missing.None? ==>
      && FirstGap(q, "jobTitle", n)
      && JobsPresent(q, n)
      && Renderable(JobsUpTo(q, n))
      && doc.placements == old(doc.placements) + JobsBlock(JobsUpTo(q, n), y0, doc.pageWidth, measure)
      && y == y0 + JobsHeight(JobsUpTo(q, n), doc.pageWidth, measure)
  {
    y := y0;
    ghost var start := doc.placements;
    ghost var js: seq<Job> := [];
    ghost var bound := ProbeBound(q, "jobTitle");
    n := 0;
    while Present(q, "jobTitle", n + 1)
      invariant n + 1 <= bound
      invariant JobsPresent(q, n)
      invariant js == JobsUpTo(q, n) && Renderable(js)
      invariant doc.placements == start + JobsBlock(js, y0, doc.pageWidth, measure)
      invariant y == y0 + JobsHeight(js, doc.pageWidth, measure)
      decreases bound - n
    {
      var job := JobAt(q, n + 1);
      var entry := DrawNextJob(doc, start, js, job, y0, y, measure);
      if entry.Err? {
        DescriptionMissingAt(q, n + 1);
        return n, y, Some(Key("description", n + 1));
      }
      y := entry.value;
      JobsPresentStep(q, n + 1);
      js := js + [job];
      n := n + 1;
    }
    JobsEnd(q, n);
    missing := None;
  }

  /** Draws `job` below the entries `above` already drawn from `y0`: the
      section drawn so far grows by one entry. */
  method DrawNextJob(doc: Doc, ghost prefix: seq<Placement>, ghost above: seq<Job>, job: Job,
                     ghost y0: int, y: int, measure: Measure) returns (r: Result<int>)
    requires Renderable(above) && job.title.Some?
    requires doc.placements == prefix + JobsBlock(above, y0, doc.pageWidth, measure)
    requires y == y0 + JobsHeight(above, doc.pageWidth, measure)
    modifies doc
    ensures r.Err? <==> job.description.None?
    ensures r.Ok? ==>
      && Renderable(above + [job])
      && doc.placements == prefix + JobsBlock(above + [job], y0, doc.pageWidth, measure)
      && r.value == y0 + JobsHeight(above + [job], doc.pageWidth, measure)
  {
    r := DrawJob(doc, job, y, measure);
    if r.Ok? {
      JobsBlockSnoc(above, job, y0, y, doc.pageWidth, measure);
      Associative(prefix, JobsBlock(above, y0, doc.pageWidth, measure), JobBlock(job, y, doc.pageWidth, measure));
    }
  }

  /** Entry `k`, reached with a truthy title, lacks its description. */
  lemma DescriptionMissingAt(q: Query, k: nat)
    requires k >= 1 && JobsPresent(q, k - 1)
    requires Present(q, "jobTitle", k) && JobAt(q, k).description.None?
    ensures MissingDescription(q, k, Key("description", k))
  {
  }

  /** The loop stops at the first absent title, past `n` complete entries. */
  lemma JobsEnd(q: Query, n: nat)
    requires JobsPresent(q, n) && !Present(q, "jobTitle", n + 1)
    ensures FirstGap(q, "jobTitle", n) && Renderable(JobsUpTo(q, n))
  {
    JobsPresentRenderable(q, n);
  }

  /** One more entry is drawn where the entries before it end. */
  lemma JobsBlockSnoc(jobs: seq<Job>, job: Job, y: int, at: int, pageWidth: int, measure: Measure)
    requires Renderable(jobs) && job.title.Some? && job.description.Some?
    requires at == y + JobsHeight(jobs, pageWidth, measure)
    ensures Renderable(jobs + [job])
    ensures JobsHeight(jobs + [job], pageWidth, measure)
      == JobsHeight(jobs, pageWidth, measure) + JobHeight(job, pageWidth, measure)
    ensures JobsBlock(jobs + [job], y, pageWidth, measure)
      == JobsBlock(jobs, y, pageWidth, measure) + JobBlock(job, at, pageWidth, measure)
  {
    assert (jobs + [job])[..|jobs|] == jobs;
  }

  /** `missing` is `description{n}`, absent, of the first entry the loop
      reaches without one: entries 1..n-1 are complete and title `n` is
      truthy. */
  ghost predicate MissingDescription(q: Query, n: nat, missing: string)
  {
    && 1 <= n
    && missing == Key("description", n)
    && missing !in q
    && JobsPresent(q, n - 1)
    && Present(q, "jobTitle", n)
  }

  /** At most one entry is the first reached without a description. */
  lemma MissingDescriptionUnique(q: Query, n: nat, m: nat, a: string, b: string)
    requires MissingDescription(q, n, a) && MissingDescription(q, m, b)
    ensures n == m && a == b
  {
  }

  /** One education entry at cursor `y0` (index.js lines 111-119). */
  method DrawDegree(doc: Doc, d: Degree, y0: int) returns (y: int)
    requires d.degree.Some?
    modifies doc
    ensures doc.placements == old(doc.placements) + DegreeBlock(d, y0)
    ensures y == y0 + 15
  {
    y := y0;
    doc.Text(Margin, y, d.degree.value, Left, 10, Bold);
    y := y + 5;
    doc.Text(Margin, y, Dates(d.university, d.startDate, d.endDate), Left, 10, Normal);
    y := y + 10;
  }

  lemma Associative<T>(a: seq<T>, b: seq<T>, c: seq<T>)
    ensures (a + b) + c == a + (b + c)
  {
  }

  /** Draws `d` below the entries `above` already drawn from `y0`: the
      section drawn so far grows by one entry. */
  method DrawNextDegree(doc: Doc, ghost prefix: seq<Placement>, ghost above: seq<Degree>, d: Degree,
                        ghost y0: int, y: int) returns (next: int)
    requires Drawable(above) && d.degree.Some?
    requires doc.placements == prefix + DegreesBlock(above, y0)
    requires y == y0 + 15 * |above|
    modifies doc
    ensures Drawable(above + [d])
    ensures doc.placements == prefix + DegreesBlock(above + [d], y0)
    ensures next == y0 + 15 * |above + [d]|
  {
    next := DrawDegree(doc, d, y);
    DegreesBlockSnoc(above, d, y0, y);
    Associative(prefix, DegreesBlock(above, y0), DegreeBlock(d, y));
  }

  /** Entry `k` with a truthy degree extends the drawable prefix. */
  lemma DegreesPresentStep(q: Query, k: nat)
    requires k >= 1 && DegreesPresent(q, k - 1) && Present(q, "degree", k)
    ensures DegreesPresent(q, k) && DegreesUpTo(q, k) == DegreesUpTo(q, k - 1) + [DegreeAt(q, k)]
  {
  }


  /** One more entry is drawn where the entries before it end. */
  lemma DegreesBlockSnoc(ds: seq<Degree>, d: Degree, y: int, at: int)
    requires Drawable(ds) && d.degree.Some? && at == y + 15 * |ds|
    ensures Drawable(ds + [d])
    ensures DegreesBlock(ds + [d], y) == DegreesBlock(ds, y) + DegreeBlock(d, at)
  {
    assert (ds + [d])[..|ds|] == ds;
  }

  /** The education section (index.js lines 104-121): the heading, then
      the probing loop over `degree1`, `degree2`, ..., drawing each entry
      until the first absent or empty degree. */
  method DrawEducation(doc: Doc, q: Query, y0: int) returns (n: nat, y: int)
    modifies doc
    ensures FirstGap(q, "degree", n) && DegreesPresent(q, n)
    ensures Drawable(DegreesUpTo(q, n))
    ensures doc.placements == old(doc.placements) + EducationSection(DegreesUpTo(q, n), y0)
    ensures y == y0 + 10 + 15 * n
  {
    var top := DrawHeading(doc, "Education", y0);
    n, y := DrawDegrees(doc, q, top);
    Associative(old(doc.placements), Heading("Education", y0), DegreesBlock(DegreesUpTo(q, n), top));
  }

  /** The probing loop of the education section: entries `degree1`,
      `degree2`, ... are drawn from `y0` down until the first absent or
      empty degree. */
  method DrawDegrees(doc: Doc, q: Query, y0: int) returns (n: nat, y: int)
    modifies doc
    ensures FirstGap(q, "degree", n) && DegreesPresent(q, n)
    ensures Drawable(DegreesUpTo(q, n))
    ensures doc.placements == old(doc.placements) + DegreesBlock(DegreesUpTo(q, n), y0)
    ensures y == y0 + 15 * n
  {
    y := y0;
    ghost var start := doc.placements;
    ghost var ds: seq<Degree> := [];
    ghost var bound := ProbeBound(q, "degree");
    n := 0;
    while Present(q, "degree", n + 1)
      invariant n + 1 <= bound
      invariant DegreesPresent(q, n)
      invariant ds == DegreesUpTo(q, n) && Drawable(ds)
      invariant doc.placements == start + DegreesBlock(ds, y0)
      invariant y == y0 + 15 * |ds|
      decreases bound - n
    {
      var d := DegreeAt(q, n + 1);
      y := DrawNextDegree(doc, start, ds, d, y0, y);
      DegreesPresentStep(q, n + 1);
      ds := ds + [d];
      n := n + 1;
    }
  }


  // ---------------------------------------------------------------------
  // The whole build

  /** The fields read unconditionally, in the order the build reads them. */
  const ScalarKeys: seq<string> := IdentityKeys + ["summary", "expertise"]

  /** `keys[i]` is the first of `keys` absent from the query. */
  ghost predicate FirstAbsentAt(q: Query, keys: seq<string>, i: int)
  {
    && 0 <= i < |keys|
    && keys[i] !in q
    && forall j :: 0 <= j < i ==> keys[j] in q
  }

  /** Every work entry the experience loop reaches has a description: for
      every `n` whose titles 1..n are all truthy, `description{n}` is present. */
  ghost predicate DescriptionsPresent(q: Query)
  {
    forall n: nat :: 1 <= n && (forall j :: 1 <= j <= n ==> Present(q, "jobTitle", j))
      ==> Field(q, "description", n).Some?
  }

  /** The loop stops at the first gap, so the entries before it are all the
      entries it reaches. */
  lemma {:induction false} DescriptionsPresentAtGap(q: Query, n: nat)
    requires FirstGap(q, "jobTitle", n) && JobsPresent(q, n)
    ensures DescriptionsPresent(q)
  {
    forall m: nat | 1 <= m && (forall j :: 1 <= j <= m ==> Present(q, "jobTitle", j))
      ensures Field(q, "description", m).Some?
    {
      if m > n {
        assert false;
      }
    }
  }

  /** A reached entry without a description contradicts `DescriptionsPresent`. */
  lemma MissingDescriptionFails(q: Query, n: nat, missing: string)
    requires MissingDescription(q, n, missing)
    ensures !DescriptionsPresent(q)
  {
    assert forall j :: 1 <= j <= n ==> Present(q, "jobTitle", j);
    assert Field(q, "description", n).None?;
  }

  /** The personal information (index.js lines 50-55): the name in 18pt
      bold, then four body-font lines. The first absent field makes the
      build fail. */
  method DrawIdentity(doc: Doc, q: Query) returns (missing: Option<string>)
    modifies doc
    ensures missing.None? <==> forall k :: k in IdentityKeys ==> k in q
    ensures missing.Some? ==>
      exists i :: FirstAbsentAt(q, IdentityKeys, i) && missing.value == IdentityKeys[i]
    ensures missing.None? ==> doc.placements == old(doc.placements) + IdentityBlock(q)
  {
    var fullName := Get(q, "fullName");
    if fullName.None? {
      assert FirstAbsentAt(q, IdentityKeys, 0);
      return Some("fullName");
    }
    doc.Text(Margin, 20, fullName.value, Left, 18, Bold);
    var email := Get(q, "email");
    if email.None? {
      assert FirstAbsentAt(q, IdentityKeys, 1);
      return Some("email");
    }
    doc.Text(Margin, 30, email.value, Left, 10, Normal);
    var phone := Get(q, "phone");
    if phone.None? {
      assert FirstAbsentAt(q, IdentityKeys, 2);
      return Some("phone");
    }
    doc.Text(Margin, 35, phone.value, Left, 10, Normal);
    var linkedin := Get(q, "linkedin");
    if linkedin.None? {
      assert FirstAbsentAt(q, IdentityKeys, 3);
      return Some("linkedin");
    }
    doc.Text(Margin, 40, linkedin.value, Left, 10, Normal);
    var location := Get(q, "location");
    if location.None? {
      assert FirstAbsentAt(q, IdentityKeys, 4);
      return Some("location");
    }
    doc.Text(Margin, 45, location.value, Left, 10, Normal);
    return None;
  }

  /** The summary (index.js lines 57-64): the heading at height 55, then the
      summary wrapped in the heading's font, from height 60. Returns the
      cursor below the last line. */
  method DrawSummary(doc: Doc, q: Query, measure: Measure) returns (r: Result<int>)
    modifies doc
    ensures r.Err? <==> "summary" !in q
    ensures r.Err? ==> r.missing == "summary"
    ensures r.Ok? ==>
      && doc.placements == old(doc.placements) + SummaryBlock(q["summary"], doc.pageWidth, measure)
      && r.value == AfterSummary(q, doc.pageWidth, measure)
  {
    doc.Text(Margin, 55, "Summary", Left, 14, Bold);
    var summary := Get(q, "summary");
    if summary.None? {
      return Err("summary");
    }
    ghost var before := doc.placements;
    var lines := WrapText(summary.value, doc.pageWidth - 2 * Margin, measure, doc.font);
    var y := DrawColumn(doc, lines, Margin, 60, "");
    Associative(old(doc.placements), [Placement(Margin, 55, "Summary", HeadingFont, Left)],
                Column(lines, Margin, 60, ""));
    return Ok(y);
  }

  /** The areas of expertise (index.js lines 66-74): a heading, then one
      bullet per comma-separated item, trimmed. */
  method DrawExpertise(doc: Doc, q: Query, y0: int) returns (r: Result<int>)
    modifies doc
    ensures r.Err? <==> "expertise" !in q
    ensures r.Err? ==> r.missing == "expertise"
    ensures r.Ok? ==>
      && doc.placements == old(doc.placements) + ExpertiseBlock(ExpertiseItems(q["expertise"]), y0)
      && r.value == y0 + 10 + 5 * |ExpertiseItems(q["expertise"])|
  {
    var y := DrawHeading(doc, "Areas of Expertise", y0);
    var expertise := Get(q, "expertise");
    if expertise.None? {
      return Err("expertise");
    }
    var items := ExpertiseItems(expertise.value);
    y := DrawColumn(doc, items, Margin + 5, y, Bullet);
    Associative(old(doc.placements), Heading("Areas of Expertise", y0), Column(items, Margin + 5, y0 + 10, Bullet));
    return Ok(y);
  }

  /** Builds the résumé page of query `q` on a page `pageWidth` wide, as the
      request handler does between creating the document and serialising it. */
  method Render(q: Query, pageWidth: int, measure: Measure) returns (r: Result<Rendered>)
    ensures r.Ok? <==> ScalarsPresent(q) && DescriptionsPresent(q)
    ensures r.Ok? ==>
      && FirstGap(q, "jobTitle", r.value.jobs) && JobsPresent(q, r.value.jobs)
      && FirstGap(q, "degree", r.value.degrees) && DegreesPresent(q, r.value.degrees)
      && r.value.placements == Document(q, pageWidth, measure, r.value.jobs, r.value.degrees)
    ensures r.Err? ==> r.missing !in q
    ensures r.Err? ==>
      || (exists i :: FirstAbsentAt(q, ScalarKeys, i) && r.missing == ScalarKeys[i])
      || (ScalarsPresent(q) && exists n :: MissingDescription(q, n, r.missing))
  {
    var doc := new Doc(pageWidth);
    var absent := DrawIdentity(doc, q);
    if absent.Some? {
      ghost var i :| FirstAbsentAt(q, IdentityKeys, i) && absent.value == IdentityKeys[i];
      assert FirstAbsentAt(q, ScalarKeys, i);
      return Err(absent.value);
    }
    assert doc.placements == IdentityBlock(q);
    var summary := DrawSummary(doc, q, measure);
    if summary.Err? {
      assert FirstAbsentAt(q, ScalarKeys, 5);
      return Err(summary.missing);
    }
    var expertise := DrawExpertise(doc, q, summary.value);
    if expertise.Err? {
      assert FirstAbsentAt(q, ScalarKeys, 6);
      return Err(expertise.missing);
    }
    assert ScalarsPresent(q);
    var experience := DrawExperience(doc, q, expertise.value, measure);
    if experience.Err? {
      ghost var n :| MissingDescription(q, n, experience.missing);
      MissingDescriptionFails(q, n, experience.missing);
      return Err(experience.missing);
    }
    var (jobs, y) := experience.value;
    var degrees, _ := DrawEducation(doc, q, y);
    DescriptionsPresentAtGap(q, jobs);
    JobsPresentRenderable(q, jobs);
    DegreesPresentDrawable(q, degrees);
    DocumentIs(q, pageWidth, measure, jobs, degrees, summary.value, expertise.value, y);
    r := Ok(Rendered(doc.placements, jobs, degrees));
  }

  /** `Document` with the section positions the engine computed on its way down. */
  lemma DocumentIs(q: Query, pageWidth: int, measure: Measure, jobs: nat, degrees: nat, y1: int, y2: int, y3: int)
    requires ScalarsPresent(q) && JobsPresent(q, jobs) && DegreesPresent(q, degrees)
    requires Renderable(JobsUpTo(q, jobs)) && Drawable(DegreesUpTo(q, degrees))
    requires y1 == AfterSummary(q, pageWidth, measure)
    requires y2 == y1 + 10 + 5 * |ExpertiseItems(q["expertise"])|
    requires y3 == y2 + 10 + JobsHeight(JobsUpTo(q, jobs), pageWidth, measure)
    ensures Document(q, pageWidth, measure, jobs, degrees) ==
      IdentityBlock(q)
      + SummaryBlock(q["summary"], pageWidth, measure)
      + ExpertiseBlock(ExpertiseItems(q["expertise"]), y1)
      + ExperienceSection(JobsUpTo(q, jobs), y2, pageWidth, measure)
      + EducationSection(DegreesUpTo(q, degrees), y3)
  {
    assert AfterExpertise(q, pageWidth, measure) == y2;
    assert AfterExperience(q, pageWidth, measure, jobs) == y3;
  }
}
