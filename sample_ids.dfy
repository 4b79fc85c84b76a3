/** OLC sample-id validation and read pairing: how raw `.fastq.gz` files
    are grouped into samples keyed by their 13-character OLC id
    (`<digits>-SEQ-<digits>`), and how each sample's forward (R1) and
    reverse (R2) reads are picked. */
module SampleIds {
  import opened Wrappers
  import opened Strings
  import opened Paths

  /** The OLC naming scheme's sample-id width. */
  const OlcIdLength: nat := 13

  /** `os.path.basename(filename)[:13]`: the candidate sample id. */
  function OlcPrefix(filename: string): (p: string)
    ensures |p| <= OlcIdLength
    ensures '/' !in p
  {
    var name := Basename(filename);
    var p := Take(name, OlcIdLength);
    assert forall k :: 0 <= k < |p| ==> p[k] == name[k];
    p
  }

  /** `valid_olc_id(filename)`: judge the candidate id of the file. */
  function ValidOlcId(filename: string): (r: Result<bool>)
    ensures r.Err? ==> r.error == IndexError
  {
    OlcVerdict(OlcPrefix(filename))
  }

  /** The test `valid_olc_id` applies to a candidate id: split it on '-'
      and test the components left to right, as Python's `and` does;
      reaching a missing component raises IndexError. */
  function OlcVerdict(id: string): (r: Result<bool>)
    ensures r.Err? ==> r.error == IndexError
  {
    var comps := Split(id, "-");
    if !IsDigit(comps[0]) then Ok(false)
    else if |comps| < 2 then Err(IndexError)
    else if comps[1] != "SEQ" then Ok(false)
    else if |comps| < 3 then Err(IndexError)
    else Ok(IsDigit(comps[2]))
  }

  /** The OLC shape: digits, "-SEQ-", digits, and then either nothing or a
      further '-' (whatever follows it is ignored). */
  ghost predicate OlcShaped(p: string) {
    exists a, b, rest :: p == a + "-SEQ-" + b + rest && IsDigit(a) && IsDigit(b) && IdBoundary(rest)
  }

  /** What may follow the digits of an id: nothing, or a '-'. */
  predicate IdBoundary(rest: string) {
    rest == [] || rest[0] == '-'
  }

  /** The candidate ids on which valid_olc_id indexes a component that
      the split did not produce: all digits, or digits followed by "-SEQ". */
  predicate TruncatedOlc(p: string) {
    IsDigit(p) || (|p| > 4 && p[|p| - 4..] == "-SEQ" && IsDigit(p[..|p| - 4]))
  }

  lemma DigitsHaveNoDash(s: string)
    requires IsDigit(s)
    ensures '-' !in s
  {
  }

  lemma ShapedIsValid(a: string, b: string, rest: string)
    requires IsDigit(a) && IsDigit(b) && IdBoundary(rest)
    ensures var comps := Split(a + "-SEQ-" + b + rest, "-");
      |comps| >= 3 && comps[0] == a && comps[1] == "SEQ" && comps[2] == b
  {
    DigitsHaveNoDash(a);
    DigitsHaveNoDash(b);
    assert a + "-SEQ-" + b + rest == a + "-" + ("SEQ" + "-" + (b + rest));
    SplitAt(a, "-", "SEQ" + "-" + (b + rest));
    SplitAt("SEQ", "-", b + rest);
    if rest == [] {
      assert b + rest == b;
      SplitNoSep(b, "-");
    } else {
      assert b + rest == b + "-" + rest[1..];
      SplitAt(b, "-", rest[1..]);
    }
  }

  /** What follows the first '-' of a valid candidate id. */
  lemma ShapedTail(s: string) returns (b: string, rest: string)
    requires var comps := Split(s, "-");
      |comps| >= 2 && comps[0] == "SEQ" && IsDigit(comps[1])
    ensures s == "SEQ-" + b + rest && IsDigit(b) && IdBoundary(rest)
  {
    var comps := Split(s, "-");
    SplitHead(s, '-');
    assert s == "SEQ" + "-" + s[4..];
    var rest2 := s[4..];
    SplitHead(rest2, '-');
    assert Split(rest2, "-") == comps[1..];
    b := comps[1];
    rest := rest2[|b|..];
    assert rest2 == b + rest;
  }

  lemma ValidIsShaped(p: string)
    requires var comps := Split(p, "-");
      |comps| >= 3 && IsDigit(comps[0]) && comps[1] == "SEQ" && IsDigit(comps[2])
    ensures OlcShaped(p)
  {
    var comps := Split(p, "-");
    SplitHead(p, '-');
    var a := comps[0];
    var rest1 := p[|a| + 1..];
    assert Split(rest1, "-") == comps[1..];
    var b, rest := ShapedTail(rest1);
    assert p == a + "-" + rest1;
    Regroup(a, b, rest);
    assert p == a + "-SEQ-" + b + rest && IsDigit(a) && IsDigit(b) && IdBoundary(rest);
  }

  lemma Regroup(a: string, b: string, rest: string)
    ensures a + "-" + ("SEQ-" + b + rest) == a + "-SEQ-" + b + rest
  {
    assert "-" + "SEQ-" == "-SEQ-";
  }

  lemma TruncatedRaises(p: string)
    requires TruncatedOlc(p)
    ensures var comps := Split(p, "-");
      IsDigit(comps[0]) && (|comps| == 1 || (|comps| == 2 && comps[1] == "SEQ"))
  {
    if IsDigit(p) {
      DigitsHaveNoDash(p);
      SplitNoSep(p, "-");
    } else {
      var a := p[..|p| - 4];
      DigitsHaveNoDash(a);
      assert p == a + "-" + "SEQ";
      SplitAt(a, "-", "SEQ");
      SplitNoSep("SEQ", "-");
    }
  }

  lemma RaisesIsTruncated(p: string)
    requires var comps := Split(p, "-");
      IsDigit(comps[0]) && (|comps| == 1 || (|comps| == 2 && comps[1] == "SEQ"))
    ensures TruncatedOlc(p)
  {
    var comps := Split(p, "-");
    SplitHead(p, '-');
    if |comps| == 2 {
      var rest1 := p[|comps[0]| + 1..];
      SplitHead(rest1, '-');
      assert rest1 == "SEQ";
      assert p[|p| - 4..] == "-SEQ";
      assert p[..|p| - 4] == comps[0];
    }
  }

  /** valid_olc_id accepts exactly the OLC-shaped candidate ids, raises
      IndexError exactly on the truncated ones, and rejects the rest. */
  lemma ValidOlcIdCharacterized(filename: string)
    ensures ValidOlcId(filename) == Ok(true) <==> OlcShaped(OlcPrefix(filename))
    ensures ValidOlcId(filename).Err? <==> TruncatedOlc(OlcPrefix(filename))
    ensures ValidOlcId(filename).Err? ==> ValidOlcId(filename).error == IndexError
  {
    var p := OlcPrefix(filename);
    var comps := Split(p, "-");
    if ValidOlcId(filename) == Ok(true) {
      ValidIsShaped(p);
    }
    if OlcShaped(p) {
      var a, b, rest :| p == a + "-SEQ-" + b + rest && IsDigit(a) && IsDigit(b) && IdBoundary(rest);
      ShapedIsValid(a, b, rest);
    }
    if ValidOlcId(filename).Err? {
      RaisesIsTruncated(p);
    }
    if TruncatedOlc(p) {
      TruncatedRaises(p);
    }
  }

  /** The id taken from a valid file is itself accepted, and taking the
      id of an id gives it back. */
  lemma SampleIdIsValid(filename: string)
    requires ValidOlcId(filename) == Ok(true)
    ensures OlcPrefix(OlcPrefix(filename)) == OlcPrefix(filename)
    ensures ValidOlcId(OlcPrefix(filename)) == Ok(true)
  {
    var p := OlcPrefix(filename);
    BasenameOfName(p);
    assert OlcPrefix(p) == Take(p, OlcIdLength) == p;
  }

  // ---------------------------------------------------------------------
  // retrieve_unique_sampleids

  /** id is the candidate id of some file of the list that passes. */
  ghost predicate IsSampleIdOf(id: string, files: seq<string>) {
    exists f :: f in files && ValidOlcId(f) == Ok(true) && OlcPrefix(f) == id
  }

  /** The ids the loop of retrieve_unique_sampleids collects, in file
      order and with repeats, or the error the first failing check raises. */
  function CollectedIds(files: seq<string>): Result<seq<string>>
    decreases |files|
  {
    if files == [] then Ok([])
    else
      var f := files[|files| - 1];
      match CollectedIds(files[..|files| - 1])
      case Err(e) => Err(e)
      case Ok(ids) =>
        match ValidOlcId(f)
        case Err(e) => Err(e)
        case Ok(valid) => Ok(if valid then ids + [OlcPrefix(f)] else ids)
  }

  /** The collection fails exactly when some file makes valid_olc_id raise,
      and otherwise holds exactly the ids of the files that pass. */
  lemma {:induction false} CollectedIdsSpec(files: seq<string>)
    ensures CollectedIds(files).Err? <==> exists f :: f in files && ValidOlcId(f).Err?
    ensures CollectedIds(files).Ok? ==> forall id :: id in CollectedIds(files).value <==> IsSampleIdOf(id, files)
    decreases |files|
  {
    if files != [] {
      var init, f := files[..|files| - 1], files[|files| - 1];
      assert files == init + [f];
      CollectedIdsSpec(init);
      RaisesInSnoc(init, f);
      if CollectedIds(files).Ok? {
        var ids := CollectedIds(init).value;
        assert CollectedIds(files).value == if ValidOlcId(f) == Ok(true) then ids + [OlcPrefix(f)] else ids;
        SampleIdOfSnoc(init, f);
      }
    }
  }

  /** Some file of `init + [f]` raises exactly when f or a file of init does. */
  lemma RaisesInSnoc(init: seq<string>, f: string)
    ensures (exists g :: g in init + [f] && ValidOlcId(g).Err?) <==>
      (exists g :: g in init && ValidOlcId(g).Err?) || ValidOlcId(f).Err?
  {
    ExistsInSnoc(init, f, g => ValidOlcId(g).Err?);
  }

  /** The ids of `init + [f]` are those of init and, if f passes, f's. */
  lemma SampleIdOfSnoc(init: seq<string>, f: string)
    ensures forall id :: IsSampleIdOf(id, init + [f]) <==>
      IsSampleIdOf(id, init) || (ValidOlcId(f) == Ok(true) && OlcPrefix(f) == id)
  {
    forall id
      ensures IsSampleIdOf(id, init + [f]) <==>
        IsSampleIdOf(id, init) || (ValidOlcId(f) == Ok(true) && OlcPrefix(f) == id)
    {
      SampleIdOfSnocAt(init, f, id);
    }
  }

  lemma SampleIdOfSnocAt(init: seq<string>, f: string, id: string)
    ensures IsSampleIdOf(id, init + [f]) <==>
      IsSampleIdOf(id, init) || (ValidOlcId(f) == Ok(true) && OlcPrefix(f) == id)
  {
    if IsSampleIdOf(id, init + [f]) {
      SampleIdOfSnocSplits(init, f, id);
    }
    if IsSampleIdOf(id, init) {
      SampleIdOfInit(init, f, id);
    }
    if ValidOlcId(f) == Ok(true) && OlcPrefix(f) == id {
      SampleIdOfLast(init, f, id);
    }
  }

  lemma SampleIdOfSnocSplits(init: seq<string>, f: string, id: string)
    requires IsSampleIdOf(id, init + [f])
    ensures IsSampleIdOf(id, init) || (ValidOlcId(f) == Ok(true) && OlcPrefix(f) == id)
  {
    var g :| g in init + [f] && ValidOlcId(g) == Ok(true) && OlcPrefix(g) == id;
    if g != f {
      assert g in init;
    }
  }

  lemma SampleIdOfInit(init: seq<string>, f: string, id: string)
    requires IsSampleIdOf(id, init)
    ensures IsSampleIdOf(id, init + [f])
  {
    var g :| g in init && ValidOlcId(g) == Ok(true) && OlcPrefix(g) == id;
    assert g in init + [f];
  }

  lemma SampleIdOfLast(init: seq<string>, f: string, id: string)
    requires ValidOlcId(f) == Ok(true) && OlcPrefix(f) == id
    ensures IsSampleIdOf(id, init + [f])
  {
    assert f in init + [f];
  }

  /** Some element of `init + [f]` satisfies p exactly when f or an element
      of init does. */
  lemma ExistsInSnoc<T>(init: seq<T>, f: T, p: T -> bool)
    ensures (exists g :: g in init + [f] && p(g)) <==> (exists g :: g in init && p(g)) || p(f)
  {
    if exists g :: g in init + [f] && p(g) {
      var g :| g in init + [f] && p(g);
      assert g in init || g == f;
    }
    if exists g :: g in init && p(g) {
      var g :| g in init && p(g);
      assert g in init + [f];
    }
    assert f in init + [f];
  }

  /** `retrieve_unique_sampleids(files)`: the distinct ids of the files
      that pass validation, in no particular order (`list(set(...))`). */
  method RetrieveUniqueSampleIds(files: seq<string>) returns (r: Result<seq<string>>)
    ensures r.Err? <==> exists f :: f in files && ValidOlcId(f).Err?
    ensures r.Err? ==> r.error == IndexError
    ensures r.Ok? ==> NoDuplicates(r.value)
    ensures r.Ok? ==> forall id :: id in r.value <==> IsSampleIdOf(id, files)
  {
    var ids: seq<string> := [];
    for i := 0 to |files|
      invariant CollectedIds(files[..i]) == Ok(ids)
    {
      assert files[..i + 1][..i] == files[..i];
      var valid := ValidOlcId(files[i]);
      if valid.Err? {
        assert files[i] in files;
        return Err(valid.error);
      }
      if valid.value {
        ids := ids + [OlcPrefix(files[i])];
      }
    }
    assert files[..|files|] == files;
    CollectedIdsSpec(files);
    ids := ListSet(set id | id in ids);
    return Ok(ids);
  }

  // ---------------------------------------------------------------------
  // get_readpair

  /** The two reads of a sample, as absolute paths. */
  datatype ReadPair = ReadPair(forward: string, reverse: string)

  /** How get_readpair classifies a file for an id. */
  datatype Mate = Forward | Reverse | Unmatched

  /** The id must occur somewhere in the basename; "R1" is checked before
      "R2", so a name holding both is a forward read. */
  function MateOf(id: string, file: string): (m: Mate)
    ensures m != Unmatched ==> Contains(Basename(file), id)
    ensures m == Reverse ==> !Contains(Basename(file), "R1")
  {
    var name := Basename(file);
    if !Contains(name, id) then Unmatched
    else if Contains(name, "R1") then Forward
    else if Contains(name, "R2") then Reverse
    else Unmatched
  }

  /** How get_readpair classifies each file of the list, in order. */
  function Mates(id: string, files: seq<string>): (ms: seq<Mate>)
    ensures |ms| == |files|
    ensures forall i :: 0 <= i < |files| ==> ms[i] == MateOf(id, files[i])
  {
    seq(|files|, i requires 0 <= i < |files| => MateOf(id, files[i]))
  }

  /** The index of the last of the first n classifications equal to m, or
      -1 when there is none: a later match replaces an earlier one. */
  function LastMateIndex(ms: seq<Mate>, m: Mate, n: nat): (k: int)
    requires n <= |ms|
    ensures -1 <= k < n
    ensures k >= 0 ==> ms[k] == m
    ensures forall l :: k < l < n ==> ms[l] != m
    decreases n
  {
    if n == 0 then -1
    else if ms[n - 1] == m then n - 1
    else LastMateIndex(ms, m, n - 1)
  }

  /** The file get_readpair holds for mate m after the first n files. */
  function MateAfter(id: string, files: seq<string>, m: Mate, n: nat): Option<string>
    requires n <= |files|
  {
    var k := LastMateIndex(Mates(id, files), m, n);
    if k < 0 then None else Some(files[k])
  }

  /** The file get_readpair keeps for mate m. */
  function LastMate(id: string, files: seq<string>, m: Mate): Option<string> {
    MateAfter(id, files, m, |files|)
  }

  /** What get_readpair returns, or raises: None without a forward read;
      `os.path.abspath(None)` raises TypeError when there is a forward read
      but no reverse one. */
  function ReadPairOf(id: string, files: seq<string>, cwd: string): Result<Option<ReadPair>> {
    match LastMate(id, files, Forward)
    case None => Ok(None)
    case Some(r1) =>
      match LastMate(id, files, Reverse)
      case None => Err(TypeError)
      case Some(r2) => Ok(Some(ReadPair(AbsPath(cwd, r1), AbsPath(cwd, r2))))
  }

  /** `get_readpair(sample_id, files)` in a process whose working
      directory is cwd. */
  method GetReadPair(sampleId: string, files: seq<string>, cwd: string) returns (r: Result<Option<ReadPair>>)
    ensures r == ReadPairOf(sampleId, files, cwd)
  {
    var r1: Option<string> := None;
    var r2: Option<string> := None;
    for i := 0 to |files|
      invariant r1 == MateAfter(sampleId, files, Forward, i)
      invariant r2 == MateAfter(sampleId, files, Reverse, i)
    {
      MateAfterStep(sampleId, files, Forward, i);
      MateAfterStep(sampleId, files, Reverse, i);
      var name := Basename(files[i]);
      if Contains(name, sampleId) {
        if Contains(name, "R1") {
          r1 := Some(files[i]);
        } else if Contains(name, "R2") {
          r2 := Some(files[i]);
        }
      }
    }
    if r1.Some? {
      if r2.None? {
        return Err(TypeError);
      }
      return Ok(Some(ReadPair(AbsPath(cwd, r1.value), AbsPath(cwd, r2.value))));
    }
    return Ok(None);
  }

  /** Looking at one more file replaces the held file when it is of mate m. */
  lemma MateAfterStep(id: string, files: seq<string>, m: Mate, i: nat)
    requires i < |files|
    ensures MateAfter(id, files, m, i + 1) ==
      if MateOf(id, files[i]) == m then Some(files[i]) else MateAfter(id, files, m, i)
  {
    assert Mates(id, files)[i] == MateOf(id, files[i]);
  }

  /** LastMate finds a file exactly when some file is classified as m, and
      the file it finds is one of them. */
  lemma LastMateFinds(id: string, files: seq<string>, m: Mate)
    ensures LastMate(id, files, m).None? <==> forall f :: f in files ==> MateOf(id, f) != m
    ensures LastMate(id, files, m).Some? ==>
      LastMate(id, files, m).value in files && MateOf(id, LastMate(id, files, m).value) == m
  {
    var ms := Mates(id, files);
    var k := LastMateIndex(ms, m, |files|);
    if k >= 0 {
      assert files[k] in files;
    } else {
      forall f | f in files
        ensures MateOf(id, f) != m
      {
        var l :| 0 <= l < |files| && files[l] == f;
        assert ms[l] != m;
      }
    }
  }

  /** get_readpair returns None exactly when no file is a forward read,
      raises TypeError exactly when there is a forward read but no reverse
      one, and otherwise returns the absolute paths of a forward and a
      reverse read of the id. */
  lemma ReadPairOutcomes(id: string, files: seq<string>, cwd: string)
    ensures ReadPairOf(id, files, cwd) == Ok(None) <==>
      forall f :: f in files ==> MateOf(id, f) != Forward
    ensures ReadPairOf(id, files, cwd) == Err(TypeError) <==>
      (exists f :: f in files && MateOf(id, f) == Forward) && forall f :: f in files ==> MateOf(id, f) != Reverse
    ensures ReadPairOf(id, files, cwd).Ok? && ReadPairOf(id, files, cwd).value.Some? ==>
      var pair := ReadPairOf(id, files, cwd).value.value;
      exists f1, f2 :: f1 in files && f2 in files && MateOf(id, f1) == Forward && MateOf(id, f2) == Reverse
        && pair == ReadPair(AbsPath(cwd, f1), AbsPath(cwd, f2))
  {
    LastMateFinds(id, files, Forward);
    LastMateFinds(id, files, Reverse);
  }

  /** When a sample has at most one forward and at most one reverse file,
      the order in which the directory is listed does not matter. */
  lemma ReadPairIgnoresOrder(id: string, files: seq<string>, other: seq<string>, cwd: string)
    requires multiset(files) == multiset(other)
    requires forall f, g :: f in files && g in files && MateOf(id, f) == MateOf(id, g) == Forward ==> f == g
    requires forall f, g :: f in files && g in files && MateOf(id, f) == MateOf(id, g) == Reverse ==> f == g
    ensures ReadPairOf(id, files, cwd) == ReadPairOf(id, other, cwd)
  {
    forall f
      ensures f in files <==> f in other
    {
      assert f in files <==> f in multiset(files);
      assert f in other <==> f in multiset(other);
    }
    SameMate(id, files, other, Forward);
    SameMate(id, files, other, Reverse);
  }

  /** Some file is classified as m, so LastMate finds one. */
  lemma SameMateFound(id: string, files: seq<string>, other: seq<string>, m: Mate)
    requires forall f :: f in files ==> f in other
    ensures LastMate(id, files, m).Some? ==> LastMate(id, other, m).Some?
  {
    LastMateFinds(id, files, m);
    LastMateFinds(id, other, m);
  }

  lemma SameMate(id: string, files: seq<string>, other: seq<string>, m: Mate)
    requires forall f :: f in files <==> f in other
    requires forall f, g :: f in files && g in files && MateOf(id, f) == MateOf(id, g) == m ==> f == g
    ensures LastMate(id, files, m) == LastMate(id, other, m)
  {
    SameMateFound(id, files, other, m);
    SameMateFound(id, other, files, m);
    LastMateFinds(id, files, m);
    LastMateFinds(id, other, m);
  }

  // ---------------------------------------------------------------------
  // populate_sample_dictionary

  /** A Python dict from sample id to read pair (None for an unpaired id),
      with the order in which its keys were inserted. */
  datatype SampleDictionary = SampleDictionary(order: seq<string>, pairs: map<string, Option<ReadPair>>)
  {
    ghost predicate Valid() {
      NoDuplicates(order) && forall id :: id in pairs <==> id in order
    }

    /** `d.values()`: the values in insertion order. */
    function Values(): (vs: seq<Option<ReadPair>>)
      requires Valid()
      ensures |vs| == |order|
      ensures forall k :: 0 <= k < |order| ==> vs[k] == pairs[order[k]]
    {
      seq(|order|, k requires 0 <= k < |order| => pairs[order[k]])
    }

    /** `d[id] = value`: a new key goes to the end, an existing one keeps
        its place. */
    function Set(id: string, value: Option<ReadPair>): SampleDictionary {
      if id in pairs then SampleDictionary(order, pairs[id := value])
      else SampleDictionary(order + [id], pairs[id := value])
    }
  }

  /** The dictionary populate_sample_dictionary builds from ids, or the
      error of the first id whose pairing raises. */
  function Populated(ids: seq<string>, files: seq<string>, cwd: string): Result<SampleDictionary>
    decreases |ids|
  {
    if ids == [] then Ok(SampleDictionary([], map[]))
    else
      var id := ids[|ids| - 1];
      match Populated(ids[..|ids| - 1], files, cwd)
      case Err(e) => Err(e)
      case Ok(d) =>
        match ReadPairOf(id, files, cwd)
        case Err(e) => Err(e)
        case Ok(pair) => Ok(d.Set(id, pair))
  }

  /** The dictionary fails exactly when some id's pairing raises (always a
      TypeError); otherwise its keys are the ids, each mapped to that id's
      pairing, unpaired ids included, and ids that are already distinct keep
      their order. */
  lemma {:induction false} PopulatedSpec(ids: seq<string>, files: seq<string>, cwd: string)
    ensures Populated(ids, files, cwd).Err? <==> exists id :: id in ids && ReadPairOf(id, files, cwd).Err?
    ensures Populated(ids, files, cwd).Err? ==> Populated(ids, files, cwd).error == TypeError
    ensures Populated(ids, files, cwd).Ok? ==>
      var d := Populated(ids, files, cwd).value;
      && d.Valid()
      && (forall id :: id in d.pairs <==> id in ids)
      && (forall id :: id in d.pairs ==> ReadPairOf(id, files, cwd) == Ok(d.pairs[id]))
      && (NoDuplicates(ids) ==> d.order == ids)
    decreases |ids|
  {
    if ids != [] {
      var init, id := ids[..|ids| - 1], ids[|ids| - 1];
      assert ids == init + [id];
      PopulatedSpec(init, files, cwd);
      PopulatedErrStep(init, id, files, cwd);
      if Populated(ids, files, cwd).Ok? {
        PopulatedOkStep(init, id, files, cwd);
      }
    }
  }

  /** The step of PopulatedSpec that decides whether adding id raises. */
  lemma PopulatedErrStep(init: seq<string>, id: string, files: seq<string>, cwd: string)
    requires Populated(init, files, cwd).Err? <==> exists x :: x in init && ReadPairOf(x, files, cwd).Err?
    requires Populated(init, files, cwd).Err? ==> Populated(init, files, cwd).error == TypeError
    ensures Populated(init + [id], files, cwd).Err? <==>
      exists x :: x in init + [id] && ReadPairOf(x, files, cwd).Err?
    ensures Populated(init + [id], files, cwd).Err? ==> Populated(init + [id], files, cwd).error == TypeError
  {
    PopulatedSnoc(init, id, files, cwd);
    RaisingIdInSnoc(init, id, files, cwd);
    ReadPairErrors(id, files, cwd);
  }

  /** Adding one id raises exactly when the earlier ids did, with their
      error, or when the new id's pairing raises, with its error. */
  lemma PopulatedSnoc(init: seq<string>, id: string, files: seq<string>, cwd: string)
    ensures Populated(init + [id], files, cwd) ==
      match Populated(init, files, cwd)
      case Err(e) => Err(e)
      case Ok(d) =>
        match ReadPairOf(id, files, cwd)
        case Err(e) => Err(e)
        case Ok(pair) => Ok(d.Set(id, pair))
  {
    var ids := init + [id];
    assert ids[..|ids| - 1] == init && ids[|ids| - 1] == id;
  }

  /** get_readpair only ever raises TypeError. */
  lemma ReadPairErrors(id: string, files: seq<string>, cwd: string)
    ensures ReadPairOf(id, files, cwd).Err? ==> ReadPairOf(id, files, cwd).error == TypeError
  {
  }

  /** Some id of `init + [id]` raises exactly when id or an id of init
      does. */
  lemma RaisingIdInSnoc(init: seq<string>, id: string, files: seq<string>, cwd: string)
    ensures (exists x :: x in init + [id] && ReadPairOf(x, files, cwd).Err?) <==>
      (exists x :: x in init && ReadPairOf(x, files, cwd).Err?) || ReadPairOf(id, files, cwd).Err?
  {
    if exists x :: x in init + [id] && ReadPairOf(x, files, cwd).Err? {
      var x :| x in init + [id] && ReadPairOf(x, files, cwd).Err?;
      if x != id {
        assert x in init;
      }
    }
    if exists x :: x in init && ReadPairOf(x, files, cwd).Err? {
      var x :| x in init && ReadPairOf(x, files, cwd).Err?;
      assert x in init + [id];
    }
    if ReadPairOf(id, files, cwd).Err? {
      assert id in init + [id];
    }
  }

  /** The step of PopulatedSpec that adds an id whose pairing succeeds. */
  lemma PopulatedOkStep(init: seq<string>, id: string, files: seq<string>, cwd: string)
    requires Populated(init + [id], files, cwd).Ok?
    requires Populated(init, files, cwd).Ok? ==>
      var d := Populated(init, files, cwd).value;
      && d.Valid()
      && (forall x :: x in d.pairs <==> x in init)
      && (forall x :: x in d.pairs ==> ReadPairOf(x, files, cwd) == Ok(d.pairs[x]))
      && (NoDuplicates(init) ==> d.order == init)
    ensures var d := Populated(init + [id], files, cwd).value;
      && d.Valid()
      && (forall x :: x in d.pairs <==> x in init + [id])
      && (forall x :: x in d.pairs ==> ReadPairOf(x, files, cwd) == Ok(d.pairs[x]))
      && (NoDuplicates(init + [id]) ==> d.order == init + [id])
  {
    var ids := init + [id];
    assert ids[..|ids| - 1] == init && ids[|ids| - 1] == id;
    var d := Populated(init, files, cwd).value;
    var pair := ReadPairOf(id, files, cwd).value;
    assert Populated(ids, files, cwd) == Ok(d.Set(id, pair));
    SetSpec(d, id, pair);
    forall x
      ensures x in ids <==> x in init || x == id
    {
      if x in ids {
        var k :| 0 <= k < |ids| && ids[k] == x;
        if k < |init| {
          assert init[k] == x;
        }
      }
    }
    if NoDuplicates(ids) {
      SnocNoDuplicates(init, id);
    }
  }

  /** `d[id] = value` keeps the dictionary well formed, adds id as a key
      and changes no other key's value. */
  lemma SetSpec(d: SampleDictionary, id: string, value: Option<ReadPair>)
    requires d.Valid()
    ensures d.Set(id, value).Valid()
    ensures forall x :: x in d.Set(id, value).pairs <==> x in d.pairs || x == id
    ensures d.Set(id, value).pairs[id] == value
    ensures forall x :: x in d.pairs && x != id ==> d.Set(id, value).pairs[x] == d.pairs[x]
    ensures id !in d.pairs ==> d.Set(id, value).order == d.order + [id]
  {
    if id !in d.pairs {
      var order := d.order + [id];
      forall i, j | 0 <= i < j < |order|
        ensures order[i] != order[j]
      {
        if j == |d.order| {
          assert order[i] == d.order[i];
        }
      }
    }
  }
  /** `d[id] = value` keeps `d.values()` in insertion order: the value of
      a new key comes last, and an existing key's value is replaced where
      it stands. */
  lemma SetKeepsValueOrder(d: SampleDictionary, id: string, value: Option<ReadPair>)
    requires d.Valid()
    ensures d.Set(id, value).Valid()
    ensures id !in d.pairs ==> d.Set(id, value).Values() == d.Values() + [value]
    ensures id in d.pairs ==>
      && |d.Set(id, value).Values()| == |d.Values()|
      && forall k :: 0 <= k < |d.order| ==>
           d.Set(id, value).Values()[k] == if d.order[k] == id then value else d.Values()[k]
  {
    SetSpec(d, id, value);
    var d' := d.Set(id, value);
    if id !in d.pairs {
      var vs, vs' := d.Values(), d'.Values();
      forall k | 0 <= k < |vs'|
        ensures vs'[k] == (vs + [value])[k]
      {
        if k < |d.order| {
          assert d'.order[k] == d.order[k] != id;
        }
      }
    }
  }

  /** For distinct ids, `sample_dictionary.values()` lists each id's
      pairing in the order of the ids. */
  lemma PopulatedValues(ids: seq<string>, files: seq<string>, cwd: string)
    requires NoDuplicates(ids) && Populated(ids, files, cwd).Ok?
    ensures Populated(ids, files, cwd).value.Valid()
    ensures var vs := Populated(ids, files, cwd).value.Values();
      |vs| == |ids| && forall k :: 0 <= k < |ids| ==> ReadPairOf(ids[k], files, cwd) == Ok(vs[k])
  {
    PopulatedSpec(ids, files, cwd);
    var d := Populated(ids, files, cwd).value;
    forall k | 0 <= k < |ids|
      ensures ReadPairOf(ids[k], files, cwd) == Ok(d.Values()[k])
    {
      assert d.order[k] == ids[k] && ids[k] in d.pairs;
    }
  }


  /** A list without repeats has none in its initial part and does not
      repeat its last element there. */
  lemma SnocNoDuplicates(init: seq<string>, id: string)
    requires NoDuplicates(init + [id])
    ensures NoDuplicates(init) && id !in init
  {
    var ids := init + [id];
    forall i, j | 0 <= i < j < |init|
      ensures init[i] != init[j]
    {
      assert init[i] == ids[i] && init[j] == ids[j];
    }
    forall k | 0 <= k < |init|
      ensures init[k] != id
    {
      assert init[k] == ids[k] && ids[|init|] == id;
    }
  }

  /** Once an id's pairing has raised, the later ids are never reached. */
  lemma {:induction false} PopulatedStopsAtError(ids: seq<string>, files: seq<string>, cwd: string, n: nat)
    requires n <= |ids| && Populated(ids[..n], files, cwd).Err?
    ensures Populated(ids, files, cwd) == Populated(ids[..n], files, cwd)
    decreases |ids|
  {
    if n < |ids| {
      var init := ids[..|ids| - 1];
      assert init[..n] == ids[..n];
      PopulatedStopsAtError(init, files, cwd, n);
    } else {
      assert ids[..n] == ids;
    }
  }

  /** `populate_sample_dictionary(ids, files)`: one entry per id, holding
      get_readpair's result; the first TypeError it raises ends the run. */
  method PopulateSampleDictionary(ids: seq<string>, files: seq<string>, cwd: string)
    returns (r: Result<SampleDictionary>)
    ensures r == Populated(ids, files, cwd)
  {
    var d := SampleDictionary([], map[]);
    for i := 0 to |ids|
      invariant Populated(ids[..i], files, cwd) == Ok(d)
    {
      assert ids[..i + 1][..i] == ids[..i];
      var pair := GetReadPair(ids[i], files, cwd);
      if pair.Err? {
        PopulatedStopsAtError(ids, files, cwd, i + 1);
        return Err(pair.error);
      }
      d := d.Set(ids[i], pair.value);
    }
    assert ids[..|ids|] == ids;
    return Ok(d);
  }

  /** What get_sample_dictionary yields for the listed files: IndexError
      when some file makes valid_olc_id raise; otherwise TypeError when some
      sample has a forward read but no reverse one; otherwise a dictionary
      whose keys are exactly the sample ids of the files, each mapped to
      its read pair or to None. */
  ghost predicate SampleDictionaryOf(r: Result<SampleDictionary>, files: seq<string>, cwd: string) {
    if exists f :: f in files && ValidOlcId(f).Err? then r == Err(IndexError)
    else
      && (r.Err? <==> exists id :: IsSampleIdOf(id, files) && ReadPairOf(id, files, cwd).Err?)
      && (r.Err? ==> r.error == TypeError)
      && (r.Ok? ==>
            && r.value.Valid()
            && (forall id :: id in r.value.pairs <==> IsSampleIdOf(id, files))
            && (forall id :: id in r.value.pairs ==> ReadPairOf(id, files, cwd) == Ok(r.value.pairs[id])))
  }
}
