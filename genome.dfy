/**
 * Genome-build detection from the chromosome lengths of an alignment index
 * (bin/get_genome.py): parse the index lines into a name -> length map,
 * classify the map against the three known builds, and decide whether the
 * detected build may be used by the requested sub-workflow.
 *
 * Lengths stay decimal text throughout: get_genome.py compares them as strings.
 */
module GenomeBuild {
  import opened Wrappers

  /** Chromosome name -> chromosome length (decimal text). */
  type Sizes = map<string, string>

  /** One entry of the reference table: a build name and its chromosome lengths. */
  datatype Build = Build(name: string, sizes: Sizes)

  /** Chromosome lengths of build hg19, as decimal text. */
  const Hg19Sizes: Sizes := map[
    "chr1" := "249250621",
    "chr2" := "243199373",
    "chr3" := "198022430",
    "chr4" := "191154276",
    "chr5" := "180915260",
    "chr6" := "171115067",
    "chr7" := "159138663",
    "chr8" := "146364022",
    "chr9" := "141213431",
    "chr10" := "135534747",
    "chr11" := "135006516",
    "chr12" := "133851895",
    "chr13" := "115169878",
    "chr14" := "107349540",
    "chr15" := "102531392",
    "chr16" := "90354753",
    "chr17" := "81195210",
    "chr18" := "78077248",
    "chr19" := "59128983",
    "chr20" := "63025520",
    "chr21" := "48129895",
    "chr22" := "51304566",
    "chrX" := "155270560",
    "chrY" := "59373566"]

  /** Chromosome lengths of build hg38, as decimal text. */
  const Hg38Sizes: Sizes := map[
    "chr1" := "248956422",
    "chr2" := "242193529",
    "chr3" := "198295559",
    "chr4" := "190214555",
    "chr5" := "181538259",
    "chr6" := "170805979",
    "chr7" := "159345973",
    "chr8" := "145138636",
    "chr9" := "138394717",
    "chr10" := "133797422",
    "chr11" := "135086622",
    "chr12" := "133275309",
    "chr13" := "114364328",
    "chr14" := "107043718",
    "chr15" := "101991189",
    "chr16" := "90338345",
    "chr17" := "83257441",
    "chr18" := "80373285",
    "chr19" := "58617616",
    "chr20" := "64444167",
    "chr21" := "46709983",
    "chr22" := "50818468",
    "chrX" := "156040895",
    "chrY" := "57227415"]

  /** Chromosome lengths of build chm13v2, as decimal text. */
  const Chm13v2Sizes: Sizes := map[
    "chr1" := "248387328",
    "chr2" := "242696752",
    "chr3" := "201105948",
    "chr4" := "193574945",
    "chr5" := "182045439",
    "chr6" := "172126628",
    "chr7" := "160567428",
    "chr8" := "146259331",
    "chr9" := "150617247",
    "chr10" := "134758134",
    "chr11" := "135127769",
    "chr12" := "133324548",
    "chr13" := "113566686",
    "chr14" := "101161492",
    "chr15" := "99753195",
    "chr16" := "96330374",
    "chr17" := "84276897",
    "chr18" := "80542538",
    "chr19" := "61707364",
    "chr20" := "66210255",
    "chr21" := "45090682",
    "chr22" := "51324926",
    "chrX" := "154259566",
    "chrY" := "62460029"]
  /** The reference table, in its definition order; the classifier's tie-break follows it. */
  const KnownBuilds: seq<Build> := [
    Build("hg19", Hg19Sizes),
    Build("hg38", Hg38Sizes),
    Build("chm13v2", Chm13v2Sizes)]

  /** The 24 canonical chromosomes; every other name is dropped while parsing. */
  const AllowedChr: seq<string> := [
    "chr1", "chr2", "chr3", "chr4", "chr5", "chr6", "chr7", "chr8", "chr9",
    "chr10", "chr11", "chr12", "chr13", "chr14", "chr15", "chr16", "chr17",
    "chr18", "chr19", "chr20", "chr21", "chr22", "chrX", "chrY"]

  /** The sub-workflow that only accepts build hg38. */
  const StrWorkflow: string := "str"

  const RequiredStrBuild: string := "hg38"

  // ---------------------------------------------------------------------
  // The reference table

  lemma KnownBuildNames()
    ensures |KnownBuilds| == 3
    ensures forall i, j :: 0 <= i < j < |KnownBuilds| ==> KnownBuilds[i].name != KnownBuilds[j].name
    ensures forall i :: 0 <= i < |KnownBuilds| ==> KnownBuilds[i].name != ""
  {
  }

  lemma Hg19Keys()
    ensures Hg19Sizes.Keys == set k | k in AllowedChr
  {
  }

  lemma Hg38Keys()
    ensures Hg38Sizes.Keys == set k | k in AllowedChr
  {
  }

  lemma Chm13v2Keys()
    ensures Chm13v2Sizes.Keys == set k | k in AllowedChr
  {
  }

  /** Every build lists exactly the allowed chromosomes. */
  lemma KnownBuildKeys(i: nat)
    requires i < |KnownBuilds|
    ensures KnownBuilds[i].sizes.Keys == set k | k in AllowedChr
  {
    Hg19Keys();
    Hg38Keys();
    Chm13v2Keys();
  }

  lemma Hg19Hg38Disagree()
    ensures forall k :: k in Hg19Sizes && k in Hg38Sizes ==> Hg19Sizes[k] != Hg38Sizes[k]
  {
  }

  lemma Hg19Chm13v2Disagree()
    ensures forall k :: k in Hg19Sizes && k in Chm13v2Sizes ==> Hg19Sizes[k] != Chm13v2Sizes[k]
  {
  }

  lemma Hg38Chm13v2Disagree()
    ensures forall k :: k in Hg38Sizes && k in Chm13v2Sizes ==> Hg38Sizes[k] != Chm13v2Sizes[k]
  {
  }

  /** No two builds agree on the length of any chromosome. */
  lemma KnownBuildsDisagree(i: nat, j: nat, k: string)
    requires i < |KnownBuilds| && j < |KnownBuilds| && i != j
    requires k in KnownBuilds[i].sizes && k in KnownBuilds[j].sizes
    ensures KnownBuilds[i].sizes[k] != KnownBuilds[j].sizes[k]
  {
    Hg19Hg38Disagree();
    Hg19Chm13v2Disagree();
    Hg38Chm13v2Disagree();
  }

  // ---------------------------------------------------------------------
  // Parsing the index lines
  //
  // The parser is stated for any list of allowed names; get_genome.py's list is
  // AllowedChr.

  predicate StartsWith(s: string, prefix: string)
  {
    |prefix| <= |s| && s[..|prefix|] == prefix
  }

  /** A chromosome name with the `chr` prefix added when it is missing. */
  function Normalise(name: string): (r: string)
    ensures StartsWith(r, "chr")
    ensures r == name <==> StartsWith(name, "chr")
    ensures r == name || r == "chr" + name
  {
    if StartsWith(name, "chr") then name else "chr" + name
  }

  lemma NormaliseIdempotent(name: string)
    ensures Normalise(Normalise(name)) == Normalise(name)
  {
  }

  /** A name written without the prefix is treated exactly as the prefixed name. */
  lemma NormaliseBareName(name: string)
    ensures Normalise(name) == Normalise("chr" + name) || StartsWith(name, "chr")
  {
    assert ("chr" + name)[..3] == "chr";
  }

  /** One index line, already stripped and split on tabs: the first column and the columns after it. */
  datatype Line = Line(name: string, rest: seq<string>)

  /** get_genome.py's crash on an allowed chromosome whose line has no length column, at that line. */
  datatype ParseError = MissingLength(line: nat)

  /** Whether reading line `l` fails: its name is allowed but it has no second column. */
  predicate Crashes(allowed: seq<string>, l: Line)
  {
    Normalise(l.name) in allowed && |l.rest| == 0
  }

  /** The effect of the line at `index` on the map built so far. */
  function ParseLine(allowed: seq<string>, acc: Sizes, l: Line, index: nat): (r: Result<Sizes, ParseError>)
    ensures r.Err? <==> Crashes(allowed, l)
    ensures r.Err? ==> r.error == MissingLength(index)
    ensures r.Ok? ==> forall k :: k != Normalise(l.name) ==> (k in r.value <==> k in acc)
    ensures r.Ok? ==> forall k :: k in acc && k != Normalise(l.name) ==> r.value[k] == acc[k]
  {
    var name := Normalise(l.name);
    if name !in allowed then Ok(acc)
    else if |l.rest| == 0 then Err(MissingLength(index))
    else Ok(acc[name := l.rest[0]])
  }

  /** The chromosome map of an index file: its lines applied in order, stopping at the first crash. */
  function Parse(allowed: seq<string>, lines: seq<Line>): (r: Result<Sizes, ParseError>)
    ensures r.Err? ==> r.error.line < |lines|
    decreases |lines|
  {
    if |lines| == 0 then Ok(map[])
    else
      match Parse(allowed, lines[..|lines| - 1])
      case Err(e) => Err(e)
      case Ok(acc) => ParseLine(allowed, acc, lines[|lines| - 1], |lines| - 1)
  }

  /** Builds the chromosome map line by line, as get_genome.py fills its dictionary. */
  method ChromosomeSizes(lines: seq<Line>) returns (r: Result<Sizes, ParseError>)
    ensures r == Parse(AllowedChr, lines)
    ensures r.Ok? ==> forall k :: k in r.value ==> k in AllowedChr
  {
    var fastaSizes: Sizes := map[];
    for i := 0 to |lines|
      invariant Parse(AllowedChr, lines[..i]) == Ok(fastaSizes)
    {
      assert lines[..i + 1][..i] == lines[..i];
      var name := Normalise(lines[i].name);
      if name in AllowedChr {
        if |lines[i].rest| == 0 {
          ParseErrorPersists(AllowedChr, lines, i + 1);
          return Err(MissingLength(i));
        }
        fastaSizes := fastaSizes[name := lines[i].rest[0]];
      }
    }
    assert lines[..|lines|] == lines;
    ParseKeysAllowed(AllowedChr, lines);
    return Ok(fastaSizes);
  }

  /** Once a prefix of the file has crashed, the whole file crashes with the same error. */
  lemma {:induction false} ParseErrorPersists(allowed: seq<string>, lines: seq<Line>, n: nat)
    requires n <= |lines| && Parse(allowed, lines[..n]).Err?
    ensures Parse(allowed, lines) == Parse(allowed, lines[..n])
    decreases |lines| - n
  {
    if n < |lines| {
      assert lines[..n + 1][..n] == lines[..n];
      ParseErrorPersists(allowed, lines, n + 1);
    } else {
      assert lines[..n] == lines;
    }
  }

  /** Parsing fails exactly at the first line that crashes. */
  lemma {:induction false} ParseErrorAtFirstCrash(allowed: seq<string>, lines: seq<Line>)
    ensures Parse(allowed, lines).Err? <==> exists i :: 0 <= i < |lines| && Crashes(allowed, lines[i])
    ensures Parse(allowed, lines).Err? ==>
              var i := Parse(allowed, lines).error.line;
              i < |lines| && Crashes(allowed, lines[i]) && forall j :: 0 <= j < i ==> !Crashes(allowed, lines[j])
    decreases |lines|
  {
    if |lines| > 0 {
      var n := |lines| - 1;
      var init, l := lines[..n], lines[n];
      assert lines == init + [l];
      ParseErrorAtFirstCrash(allowed, init);
      ParseSnoc(allowed, init, l);
      assert forall j :: 0 <= j < n ==> init[j] == lines[j];
    }
  }

  /** Whether line `i` is the last line whose name normalises to `k`. */
  predicate LastLineFor(lines: seq<Line>, i: int, k: string)
  {
    0 <= i < |lines| && Normalise(lines[i].name) == k &&
    forall j :: i < j < |lines| ==> Normalise(lines[j].name) != k
  }

  /** Whether some line's name normalises to `k`. */
  predicate Mentions(lines: seq<Line>, k: string)
  {
    exists i :: 0 <= i < |lines| && Normalise(lines[i].name) == k
  }

  /** A parsed map holds exactly the allowed names that occur in the file. */
  lemma {:induction false} ParseKeys(allowed: seq<string>, lines: seq<Line>)
    requires Parse(allowed, lines).Ok?
    ensures forall k :: k in Parse(allowed, lines).value <==> k in allowed && Mentions(lines, k)
    decreases |lines|
  {
    if |lines| > 0 {
      var n := |lines| - 1;
      var init, l := lines[..n], lines[n];
      assert lines == init + [l];
      ParseSnoc(allowed, init, l);
      ParseKeys(allowed, init);
      forall k
        ensures k in Parse(allowed, lines).value <==> k in allowed && Mentions(lines, k)
      {
        MentionsSnoc(init, l, k);
      }
    }
  }

  /** A name occurs in a file with one more line when it occurs before or on that line. */
  lemma MentionsSnoc(init: seq<Line>, l: Line, k: string)
    ensures Mentions(init + [l], k) <==> Mentions(init, k) || Normalise(l.name) == k
  {
    var lines := init + [l];
    assert forall j :: 0 <= j < |init| ==> lines[j] == init[j];
    if Normalise(l.name) == k {
      assert lines[|init|] == l;
    }
  }

  /** Every key of a parsed map is allowed. */
  lemma {:induction false} ParseKeysAllowed(allowed: seq<string>, lines: seq<Line>)
    requires Parse(allowed, lines).Ok?
    ensures forall k :: k in Parse(allowed, lines).value ==> k in allowed
    decreases |lines|
  {
    if |lines| > 0 {
      ParseKeysAllowed(allowed, lines[..|lines| - 1]);
    }
  }

  /** The last line naming `k` stays the last one when a line naming something else is added. */
  lemma LastLineForSnoc(lines: seq<Line>, l: Line, i: int, k: string)
    requires LastLineFor(lines, i, k) && Normalise(l.name) != k
    ensures LastLineFor(lines + [l], i, k)
  {
    assert forall j :: 0 <= j < |lines| ==> (lines + [l])[j] == lines[j];
  }

  /** Each parsed length is the one on the last line naming that chromosome. */
  lemma {:induction false} ParseLastLineWins(allowed: seq<string>, lines: seq<Line>)
    requires Parse(allowed, lines).Ok?
    ensures var m := Parse(allowed, lines).value;
            forall k :: k in m ==> exists i :: LastLineFor(lines, i, k) && |lines[i].rest| > 0 && m[k] == lines[i].rest[0]
    decreases |lines|
  {
    if |lines| > 0 {
      var n := |lines| - 1;
      var init, l := lines[..n], lines[n];
      assert lines == init + [l];
      ParseSnoc(allowed, init, l);
      ParseLastLineWins(allowed, init);
      ParseKeysAllowed(allowed, init);
      var m0 := Parse(allowed, init).value;
      var m := Parse(allowed, lines).value;
      var last := Normalise(l.name);
      forall k | k in m
        ensures exists i :: LastLineFor(lines, i, k) && |lines[i].rest| > 0 && m[k] == lines[i].rest[0]
      {
        if k == last && last in allowed {
          assert LastLineFor(lines, n, k);
        } else {
          assert k in m0 && m[k] == m0[k];
          var i :| LastLineFor(init, i, k) && |init[i].rest| > 0 && m0[k] == init[i].rest[0];
          LastLineForSnoc(init, l, i, k);
        }
      }
    }
  }

  /** A line whose normalised name is not allowed (for example `chrM`) adds nothing. */
  lemma DroppedLineIgnored(allowed: seq<string>, lines: seq<Line>, l: Line)
    requires Normalise(l.name) !in allowed
    ensures Parse(allowed, lines + [l]) == Parse(allowed, lines)
  {
    assert (lines + [l])[..|lines|] == lines;
  }

  /** The lines with every name already normalised. */
  function NormaliseNames(lines: seq<Line>): seq<Line>
  {
    seq(|lines|, i requires 0 <= i < |lines| => Line(Normalise(lines[i].name), lines[i].rest))
  }

  /** Adding the prefix beforehand changes nothing: `1` and `chr1` are the same input. */
  lemma {:induction false} ParseIgnoresPrefix(allowed: seq<string>, lines: seq<Line>)
    ensures Parse(allowed, NormaliseNames(lines)) == Parse(allowed, lines)
    decreases |lines|
  {
    if |lines| > 0 {
      var n := |lines| - 1;
      ParseIgnoresPrefix(allowed, lines[..n]);
      assert NormaliseNames(lines)[..n] == NormaliseNames(lines[..n]);
      NormaliseIdempotent(lines[n].name);
    }
  }

  // ---------------------------------------------------------------------
  // Classifying the parsed map

  /** Every (name, length) pair of `observed` is also a pair of `table`. */
  predicate ItemsSubset(observed: Sizes, table: Sizes)
  {
    forall k :: k in observed ==> k in table && observed[k] == table[k]
  }

  /** The name of the first build whose table contains `observed`, or `""` when none does. */
  function FirstMatch(observed: Sizes, builds: seq<Build>): (r: string)
    ensures r == "" || exists i :: 0 <= i < |builds| && builds[i].name == r
  {
    if |builds| == 0 then ""
    else if ItemsSubset(observed, builds[0].sizes) then builds[0].name
    else
      var r := FirstMatch(observed, builds[1..]);
      assert r != "" ==> exists i :: 1 <= i < |builds| && builds[i].name == r by {
        if r != "" {
          var i :| 0 <= i < |builds[1..]| && builds[1..][i].name == r;
          assert builds[i + 1].name == r;
        }
      }
      r
  }

  /** Whether build `i` is the first one whose table contains `observed`. */
  predicate IsFirstMatch(observed: Sizes, builds: seq<Build>, i: int)
  {
    0 <= i < |builds| && ItemsSubset(observed, builds[i].sizes) &&
    forall j :: 0 <= j < i ==> !ItemsSubset(observed, builds[j].sizes)
  }

  /** The first matching build is the one chosen. */
  lemma {:induction false} FirstMatchChoosesFirst(observed: Sizes, builds: seq<Build>, i: int)
    requires IsFirstMatch(observed, builds, i)
    ensures FirstMatch(observed, builds) == builds[i].name
    decreases |builds|
  {
    if i > 0 {
      assert !ItemsSubset(observed, builds[0].sizes);
      assert IsFirstMatch(observed, builds[1..], i - 1) by {
        assert forall j :: 0 <= j < i - 1 ==> builds[1..][j] == builds[j + 1];
      }
      FirstMatchChoosesFirst(observed, builds[1..], i - 1);
    }
  }

  /** With no matching build the result is `""`; otherwise it names a matching build. */
  lemma {:induction false} FirstMatchSound(observed: Sizes, builds: seq<Build>)
    ensures (forall i :: 0 <= i < |builds| ==> !ItemsSubset(observed, builds[i].sizes)) ==>
              FirstMatch(observed, builds) == ""
    ensures FirstMatch(observed, builds) == "" ||
              exists i :: 0 <= i < |builds| && builds[i].name == FirstMatch(observed, builds) &&
                ItemsSubset(observed, builds[i].sizes)
    decreases |builds|
  {
    if |builds| > 0 && !ItemsSubset(observed, builds[0].sizes) {
      FirstMatchSound(observed, builds[1..]);
      assert forall i :: 0 <= i < |builds| - 1 ==> builds[1..][i] == builds[i + 1];
    }
  }

  /** Some build matches exactly when a first matching build exists. */
  lemma {:induction false} FirstMatchExists(observed: Sizes, builds: seq<Build>, i: int)
    requires 0 <= i < |builds| && ItemsSubset(observed, builds[i].sizes)
    ensures exists f :: 0 <= f <= i && IsFirstMatch(observed, builds, f)
    decreases i
  {
    if !IsFirstMatch(observed, builds, i) {
      var j :| 0 <= j < i && ItemsSubset(observed, builds[j].sizes);
      FirstMatchExists(observed, builds, j);
    }
  }

  /** The build of a parsed map, `""` when the map is empty or no build matches. */
  function GetGenome(sizes: Sizes): (r: string)
    ensures |sizes| == 0 ==> r == ""
  {
    if |sizes| == 0 then "" else FirstMatch(sizes, KnownBuilds)
  }

  /**
   * A detected build is one whose table holds every observed pair; `""` means
   * the map is empty or no build matched.
   */
  lemma GetGenomeSound(sizes: Sizes)
    ensures GetGenome(sizes) != "" ==>
              exists i :: 0 <= i < |KnownBuilds| && KnownBuilds[i].name == GetGenome(sizes) &&
                ItemsSubset(sizes, KnownBuilds[i].sizes)
    ensures GetGenome(sizes) == "" <==>
              |sizes| == 0 || forall i :: 0 <= i < |KnownBuilds| ==> !ItemsSubset(sizes, KnownBuilds[i].sizes)
  {
    KnownBuildNames();
    FirstMatchSound(sizes, KnownBuilds);
    if |sizes| > 0 && exists i :: 0 <= i < |KnownBuilds| && ItemsSubset(sizes, KnownBuilds[i].sizes) {
      var i :| 0 <= i < |KnownBuilds| && ItemsSubset(sizes, KnownBuilds[i].sizes);
      FirstMatchExists(sizes, KnownBuilds, i);
      var f :| 0 <= f <= i && IsFirstMatch(sizes, KnownBuilds, f);
      FirstMatchChoosesFirst(sizes, KnownBuilds, f);
    }
  }

  /** The detected build is one of the three known names, or `""`. */
  lemma GetGenomeNames(sizes: Sizes)
    ensures GetGenome(sizes) in {"", "hg19", "hg38", "chm13v2"}
  {
    FirstMatchSound(sizes, KnownBuilds);
  }

  /** The earliest matching build in table order wins. */
  lemma GetGenomeFirstInOrder(sizes: Sizes, i: nat)
    requires |sizes| > 0 && i < |KnownBuilds| && ItemsSubset(sizes, KnownBuilds[i].sizes)
    requires forall j :: 0 <= j < i ==> !ItemsSubset(sizes, KnownBuilds[j].sizes)
    ensures GetGenome(sizes) == KnownBuilds[i].name
  {
    FirstMatchChoosesFirst(sizes, KnownBuilds, i);
  }

  /**
   * Since the builds disagree on every chromosome, any non-empty part of a
   * build's table identifies that build, whatever the order of the table.
   */
  lemma ClassifyPartOfTable(sizes: Sizes, i: nat)
    requires |sizes| > 0 && i < |KnownBuilds| && ItemsSubset(sizes, KnownBuilds[i].sizes)
    ensures GetGenome(sizes) == KnownBuilds[i].name
    ensures forall j :: 0 <= j < |KnownBuilds| && j != i ==> !ItemsSubset(sizes, KnownBuilds[j].sizes)
  {
    var k :| k in sizes;
    forall j | 0 <= j < |KnownBuilds| && j != i
      ensures !ItemsSubset(sizes, KnownBuilds[j].sizes)
    {
      if k in KnownBuilds[j].sizes {
        KnownBuildsDisagree(i, j, k);
      }
    }
    FirstMatchChoosesFirst(sizes, KnownBuilds, i);
  }

  /** The full table of a build is classified as that build. */
  lemma ClassifyFullTable(i: nat)
    requires i < |KnownBuilds|
    ensures GetGenome(KnownBuilds[i].sizes) == KnownBuilds[i].name
  {
    KnownBuildKeys(i);
    assert AllowedChr[0] in KnownBuilds[i].sizes;
    ClassifyPartOfTable(KnownBuilds[i].sizes, i);
  }

  // ---------------------------------------------------------------------
  // Compatibility with the sub-workflow

  /** The explanation given when the STR sub-workflow meets a build other than hg38. */
  function StrContext(build: string): (c: string)
    ensures |c| > 17 + |build| && c[..17] == "Detected genome: " && c[17..17 + |build|] == build
  {
    "Detected genome: " + build + ", but STRs can only be genotyped when aligned to build 38.\n"
  }

  /**
   * Whether the build is bad for the workflow (`None` when no sub-workflow
   * was given), with the context of the complaint.
   */
  function CheckGenome(build: string, workflow: Option<string>): (r: (bool, string))
    ensures r.0 <==> build == "" || (workflow == Some(StrWorkflow) && build != RequiredStrBuild)
    ensures build == "" ==> r == (true, "")
    ensures build != "" && workflow == Some(StrWorkflow) && build != RequiredStrBuild ==> r == (true, StrContext(build))
    ensures !r.0 ==> r.1 == ""
  {
    if build == "" then (true, "")
    else if workflow == Some(StrWorkflow) && build != RequiredStrBuild then (true, StrContext(build))
    else (false, "")
  }

  // ---------------------------------------------------------------------
  // The entry point's decision

  /** What a run ends with: the build written out, a data-error exit with its context, or a crash. */
  datatype Outcome = WriteBuild(build: string) | DataError(context: string) | ParseCrash(error: ParseError)

  /** Parse, classify and check, then write the build or exit with a data error. */
  function Run(lines: seq<Line>, workflow: Option<string>): (o: Outcome)
    ensures o.WriteBuild? ==> o.build in {"hg19", "hg38", "chm13v2"}
    ensures o.WriteBuild? && workflow == Some(StrWorkflow) ==> o.build == RequiredStrBuild
    ensures o.ParseCrash? <==> Parse(AllowedChr, lines).Err?
  {
    match Parse(AllowedChr, lines)
    case Err(e) => ParseCrash(e)
    case Ok(sizes) =>
      GetGenomeNames(sizes);
      var build := GetGenome(sizes);
      var (bad, context) := CheckGenome(build, workflow);
      if bad then DataError(context) else WriteBuild(build)
  }

  /** One `name<TAB>length` index line per name, in order, with the lengths taken from `table`. */
  function TableLines(names: seq<string>, table: Sizes): seq<Line>
    requires forall k :: k in names ==> k in table
  {
    seq(|names|, i requires 0 <= i < |names| => Line(names[i], [table[names[i]]]))
  }

  /** Parsing one more line applies that line to the map parsed so far. */
  lemma ParseSnoc(allowed: seq<string>, lines: seq<Line>, l: Line)
    ensures Parse(allowed, lines).Err? ==> Parse(allowed, lines + [l]) == Parse(allowed, lines)
    ensures Parse(allowed, lines).Ok? ==>
              Parse(allowed, lines + [l]) == ParseLine(allowed, Parse(allowed, lines).value, l, |lines|)
  {
    assert (lines + [l])[..|lines|] == lines;
  }

  /** Restricting the table to one more name adds that name's entry. */
  lemma RestrictSnoc(init: seq<string>, name: string, table: Sizes)
    requires name in table && forall k :: k in init ==> k in table
    ensures (map k | k in init + [name] :: table[k]) == (map k | k in init :: table[k])[name := table[name]]
  {
  }

  /** Lines of prefixed, allowed names parse to the table restricted to those names. */
  lemma {:induction false} ParseTableLines(allowed: seq<string>, names: seq<string>, table: Sizes)
    requires forall k :: k in names ==> k in table && k in allowed && StartsWith(k, "chr")
    ensures Parse(allowed, TableLines(names, table)) == Ok(map k | k in names :: table[k])
    decreases |names|
  {
    if |names| > 0 {
      var n := |names| - 1;
      var name := names[n];
      var init := names[..n];
      assert names == init + [name];
      ParseTableLines(allowed, init, table);
      var l := Line(name, [table[name]]);
      assert TableLines(names, table) == TableLines(init, table) + [l];
      ParseSnoc(allowed, TableLines(init, table), l);
      assert Normalise(name) == name;
      RestrictSnoc(init, name, table);
    }
  }


  lemma AllowedChrPrefixed()
    ensures forall k :: k in AllowedChr ==> StartsWith(k, "chr")
  {
  }

  /** The index lines of build `i`'s full table, in the order of AllowedChr. */
  function BuildIndex(i: nat): seq<Line>
    requires i < |KnownBuilds|
  {
    KnownBuildKeys(i);
    TableLines(AllowedChr, KnownBuilds[i].sizes)
  }

  /** Restricting a table to a list of all its keys gives the table back. */
  lemma RestrictToAllKeys(names: seq<string>, table: Sizes)
    requires table.Keys == set k | k in names
    ensures (map k | k in names :: table[k]) == table
  {
  }

  /** An index holding exactly a build's table parses back to that table. */
  lemma ParseBuildIndex(i: nat)
    requires i < |KnownBuilds|
    ensures Parse(AllowedChr, BuildIndex(i)) == Ok(KnownBuilds[i].sizes)
  {
    var table := KnownBuilds[i].sizes;
    KnownBuildKeys(i);
    AllowedChrPrefixed();
    ParseTableLines(AllowedChr, AllowedChr, table);
    RestrictToAllKeys(AllowedChr, table);
  }

  /**
   * Once a build is detected, the run writes it unless the STR sub-workflow
   * asks for a different build, which is a data error naming the build.
   */
  lemma RunDetected(lines: seq<Line>, workflow: Option<string>, build: string)
    requires Parse(AllowedChr, lines).Ok? && GetGenome(Parse(AllowedChr, lines).value) == build && build != ""
    ensures workflow == Some(StrWorkflow) && build != RequiredStrBuild ==>
              Run(lines, workflow) == DataError(StrContext(build))
    ensures workflow != Some(StrWorkflow) || build == RequiredStrBuild ==>
              Run(lines, workflow) == WriteBuild(build)
  {
  }

  /** An index holding a build other than hg38 fails the STR sub-workflow with a message naming that build. */
  lemma RunKnownIndexForStr(i: nat)
    requires i < |KnownBuilds| && KnownBuilds[i].name != RequiredStrBuild
    ensures Run(BuildIndex(i), Some(StrWorkflow)) == DataError(StrContext(KnownBuilds[i].name))
  {
    ParseBuildIndex(i);
    ClassifyFullTable(i);
    KnownBuildNames();
    RunDetected(BuildIndex(i), Some(StrWorkflow), KnownBuilds[i].name);
  }

  /** The hg19 index with the STR sub-workflow: a data error naming hg19. */
  lemma RunHg19IndexForStr()
    ensures Run(BuildIndex(0), Some(StrWorkflow)) == DataError(StrContext("hg19"))
  {
    assert KnownBuilds[0].name == "hg19";
    RunKnownIndexForStr(0);
  }

  /** Any build's index with no sub-workflow writes that build's name. */
  lemma RunKnownIndex(i: nat)
    requires i < |KnownBuilds|
    ensures Run(BuildIndex(i), None) == WriteBuild(KnownBuilds[i].name)
  {
    ParseBuildIndex(i);
    ClassifyFullTable(i);
    KnownBuildNames();
    RunDetected(BuildIndex(i), None, KnownBuilds[i].name);
  }

  /** An empty index file is a data error with no extra context. */
  lemma RunEmptyIndex(workflow: Option<string>)
    ensures Run([], workflow) == DataError("")
  {
  }

  /** A parsed index that matches no build is a data error with no extra context. */
  lemma RunNoMatch(lines: seq<Line>, workflow: Option<string>)
    requires Parse(AllowedChr, lines).Ok? && GetGenome(Parse(AllowedChr, lines).value) == ""
    ensures Run(lines, workflow) == DataError("")
  {
  }

  /** A run writes a build exactly when parsing succeeds, a build matches and the workflow accepts it. */
  lemma RunWritesIff(lines: seq<Line>, workflow: Option<string>)
    ensures Run(lines, workflow).WriteBuild? <==>
              Parse(AllowedChr, lines).Ok? && GetGenome(Parse(AllowedChr, lines).value) != "" &&
              (workflow == Some(StrWorkflow) ==> GetGenome(Parse(AllowedChr, lines).value) == RequiredStrBuild)
  {
  }
}
