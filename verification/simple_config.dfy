/**
 * The validated settings of project/simple_rag/config/config.py: the field
 * bounds, the two field validators and `get_data_dir`.
 *
 * Only the fields with a bound or a validator are modelled.  A field the
 * environment does not set takes its default, which the settings library
 * does not validate.
 */
module SimpleConfig {
  import opened Common
  import opened Text
  import opened Seqs

  const DEFAULT_CHUNK_SIZE: int := 1000
  const DEFAULT_CHUNK_OVERLAP: int := 200
  const DEFAULT_RETRIEVAL_K: int := 5
  const DEFAULT_LOG_LEVEL: string := "INFO"

  const VALID_LEVELS: seq<string> := ["DEBUG", "INFO", "WARNING", "ERROR", "CRITICAL"]

  // ----------------------------------------------------------- validators

  /**
   * `validate_chunk_overlap`: the overlap must be below the chunk size, which
   * is 1000 when the chunk size itself was not validated.
   */
  function ValidateChunkOverlap(v: int, chunkSize: Option<int>): (r: Result<int, string>)
    ensures var size := if chunkSize.Some? then chunkSize.value else DEFAULT_CHUNK_SIZE;
            (r.Success? <==> v < size) && (r.Success? ==> r.value == v)
  {
    var size := if chunkSize.Some? then chunkSize.value else DEFAULT_CHUNK_SIZE;
    if v >= size then
      Failure("chunk_overlap (" + IntToString(v) + ") deve ser menor que chunk_size (" + IntToString(size) + ")")
    else Success(v)
  }

  /** `validate_log_level`: the upper-cased value, if it names one of the five levels. */
  function ValidateLogLevel(v: string): (r: Result<string, string>)
    ensures r.Success? <==> Upper(v) in VALID_LEVELS
    ensures r.Success? ==> r.value == Upper(v) && r.value in VALID_LEVELS
  {
    if Upper(v) !in VALID_LEVELS then Failure("log_level deve ser um de: " + Join(VALID_LEVELS, ", "))
    else Success(Upper(v))
  }

  predicate AllCapitals(s: string)
  {
    forall k :: 0 <= k < |s| ==> 'A' <= s[k] <= 'Z'
  }

  lemma {:induction false} UpperOfCapitals(s: string)
    requires AllCapitals(s)
    ensures Upper(s) == s
    decreases |s|
  {
    if s != [] {
      UpperOfCapitals(s[1..]);
      assert s == [s[0]] + s[1..];
    }
  }

  lemma {:induction false} UpperOfLowerCapitals(s: string)
    requires AllCapitals(s)
    ensures Upper(Lower(s)) == s
    decreases |s|
  {
    if s != [] {
      UpperOfLowerCapitals(s[1..]);
      assert Lower(s) == [LowerChar(s[0])] + Lower(s[1..]);
      assert Lower(s)[1..] == Lower(s[1..]);
      assert s == [s[0]] + s[1..];
    }
  }

  lemma LevelsAreCapitals()
    ensures forall l :: l in VALID_LEVELS ==> AllCapitals(l)
  {
    assert AllCapitals("DEBUG") && AllCapitals("INFO") && AllCapitals("WARNING");
    assert AllCapitals("ERROR") && AllCapitals("CRITICAL");
  }

  /** A validated level validates to itself, and every level is accepted in lower case too. */
  lemma LogLevelNormalForm(v: string)
    ensures ValidateLogLevel(v).Success? ==> ValidateLogLevel(ValidateLogLevel(v).value) == ValidateLogLevel(v)
    ensures forall l :: l in VALID_LEVELS ==> ValidateLogLevel(Lower(l)) == Success(l)
  {
    LevelsAreCapitals();
    if ValidateLogLevel(v).Success? {
      UpperOfCapitals(Upper(v));
    }
    forall l | l in VALID_LEVELS ensures ValidateLogLevel(Lower(l)) == Success(l) {
      UpperOfLowerCapitals(l);
    }
  }

  // ------------------------------------------------------------- settings

  /** The values the environment provides; `None` for a field it does not set. */
  datatype RawSettings = RawSettings(chunkSize: Option<int>, chunkOverlap: Option<int>,
                                     retrievalK: Option<int>, logLevel: Option<string>)

  datatype Settings = Settings(chunkSize: int, chunkOverlap: int, retrievalK: int, logLevel: string)

  /** The names of the fields that fail, in declaration order, and the settings when none does. */
  function Validate(raw: RawSettings): (r: Result<Settings, seq<string>>)
    ensures r.Success? ==> r.value.chunkSize > 0 && r.value.chunkOverlap >= 0 && r.value.retrievalK > 0
    ensures r.Success? && raw.chunkOverlap.Some? ==> r.value.chunkOverlap < r.value.chunkSize
    ensures r.Success? && raw.logLevel.Some? ==> r.value.logLevel in VALID_LEVELS
    ensures r.Failure? ==> r.error != []
  {
    var sizeOk := raw.chunkSize.None? || raw.chunkSize.value > 0;
    var size := if raw.chunkSize.None? then DEFAULT_CHUNK_SIZE else raw.chunkSize.value;
    // the validator sees the chunk size only when it passed its own bound
    var seen := if sizeOk then Some(size) else None;
    var overlapOk := raw.chunkOverlap.None?
                     || (raw.chunkOverlap.value >= 0 && ValidateChunkOverlap(raw.chunkOverlap.value, seen).Success?);
    var kOk := raw.retrievalK.None? || raw.retrievalK.value > 0;
    var levelOk := raw.logLevel.None? || ValidateLogLevel(raw.logLevel.value).Success?;
    var errors := (if sizeOk then [] else ["chunk_size"]) + (if overlapOk then [] else ["chunk_overlap"])
                  + (if kOk then [] else ["retrieval_k"]) + (if levelOk then [] else ["log_level"]);
    if errors != [] then Failure(errors)
    else Success(Settings(size,
                          if raw.chunkOverlap.None? then DEFAULT_CHUNK_OVERLAP else raw.chunkOverlap.value,
                          if raw.retrievalK.None? then DEFAULT_RETRIEVAL_K else raw.retrievalK.value,
                          if raw.logLevel.None? then DEFAULT_LOG_LEVEL else ValidateLogLevel(raw.logLevel.value).value))
  }

  /**
   * Defaults are not validated: a chunk size of 100 with the default overlap
   * of 200 is accepted although the overlap is not below the chunk size.
   */
  lemma DefaultOverlapIsNotChecked()
    ensures Validate(RawSettings(Some(100), None, None, None)) == Success(Settings(100, 200, 5, "INFO"))
  {
  }

  /** When the chunk size fails its bound, the overlap is judged against 1000. */
  lemma OverlapAgainstDefaultSize(size: int, overlap: int)
    requires size <= 0 && 0 <= overlap
    ensures Validate(RawSettings(Some(size), Some(overlap), None, None))
            == if overlap < 1000 then Failure(["chunk_size"]) else Failure(["chunk_size", "chunk_overlap"])
  {
    assert ValidateChunkOverlap(overlap, None).Success? <==> overlap < 1000;
    assert ["chunk_size"] + [] + [] + [] == ["chunk_size"];
    assert ["chunk_size"] + ["chunk_overlap"] + [] + [] == ["chunk_size", "chunk_overlap"];
  }

  // ----------------------------------------------------------------- paths

  /** A pure POSIX path: whether it is absolute, and its parts. */
  datatype PurePath = PurePath(absolute: bool, parts: seq<string>)

  /** The pieces of `s` between slashes, empty ones included. */
  function SplitSlash(s: string): (r: seq<string>)
    ensures r != []
    decreases |s|
  {
    if s == [] then [""]
    else if s[0] == '/' then [""] + SplitSlash(s[1..])
    else
      var rest := SplitSlash(s[1..]);
      [[s[0]] + rest[0]] + rest[1..]
  }

  /** The parts a path keeps: empty pieces and `.` are dropped. */
  function Clean(pieces: seq<string>): (r: seq<string>)
    ensures forall k :: 0 <= k < |r| ==> r[k] != "" && r[k] != "."
    decreases |pieces|
  {
    if pieces == [] then []
    else (if pieces[0] == "" || pieces[0] == "." then [] else [pieces[0]]) + Clean(pieces[1..])
  }

  function Parse(s: string): PurePath
  {
    PurePath(s != [] && s[0] == '/', Clean(SplitSlash(s)))
  }

  /** `base / other`: an absolute `other` replaces the base. */
  function JoinPath(base: PurePath, other: string): PurePath
  {
    if other != [] && other[0] == '/' then Parse(other)
    else PurePath(base.absolute, base.parts + Clean(SplitSlash(other)))
  }

  /** `get_data_dir`. */
  function GetDataDir(baseDir: PurePath, dataDir: string): PurePath
  {
    JoinPath(baseDir, dataDir)
  }

  lemma {:induction false} SplitSlashJoin(x: string, y: string)
    ensures SplitSlash(x + "/" + y) == SplitSlash(x) + SplitSlash(y)
    decreases |x|
  {
    if x == [] {
      assert x + "/" + y == "/" + y;
      assert ("/" + y)[1..] == y;
    } else {
      ConcatTail(x + "/", y);
      ConcatTail(x, "/");
      SplitSlashJoin(x[1..], y);
      var r := SplitSlash(x[1..]);
      var ys := SplitSlash(y);
      if x[0] == '/' {
        ConcatAssoc([""], r, ys);
      } else {
        ConcatTail(r, ys);
        ConcatAssoc([[x[0]] + r[0]], r[1..], ys);
      }
    }
  }

  lemma {:induction false} CleanAppend(a: seq<string>, b: seq<string>)
    ensures Clean(a + b) == Clean(a) + Clean(b)
    decreases |a|
  {
    if a == [] {
      assert a + b == b;
    } else {
      ConcatTail(a, b);
      CleanAppend(a[1..], b);
      var head := if a[0] == "" || a[0] == "." then [] else [a[0]];
      ConcatAssoc(head, Clean(a[1..]), Clean(b));
    }
  }

  /**
   * Joining step by step is joining the combined relative path, and an
   * absolute data directory ignores the base.
   */
  lemma JoinProperties(base: PurePath, x: string, y: string)
    requires x != [] && (y == [] || y[0] != '/')
    ensures JoinPath(JoinPath(base, x), y) == JoinPath(base, x + "/" + y)
    ensures x[0] == '/' ==> forall b :: GetDataDir(b, x) == Parse(x)
  {
    var xy := x + "/" + y;
    assert xy[0] == x[0];
    if x[0] != '/' {
      RelativeJoin(base, x, y);
    } else {
      AbsoluteJoin(x, y);
    }
  }

  /** A relative first part: its segments and then those of `y` go after the base's. */
  lemma RelativeJoin(base: PurePath, x: string, y: string)
    requires x != [] && x[0] != '/' && (y == [] || y[0] != '/')
    ensures JoinPath(JoinPath(base, x), y) == JoinPath(base, x + "/" + y)
  {
    var xy := x + "/" + y;
    assert xy[0] == x[0];
    SplitSlashJoin(x, y);
    CleanAppend(SplitSlash(x), SplitSlash(y));
    ConcatAssoc(base.parts, Clean(SplitSlash(x)), Clean(SplitSlash(y)));
  }

  /** An absolute first part: joining `y` onto it is parsing the whole path. */
  lemma AbsoluteJoin(x: string, y: string)
    requires x != [] && x[0] == '/' && (y == [] || y[0] != '/')
    ensures JoinPath(Parse(x), y) == Parse(x + "/" + y)
  {
    SplitSlashJoin(x, y);
    CleanAppend(SplitSlash(x), SplitSlash(y));
    assert (x + "/" + y)[0] == x[0];
  }

  /** The empty and the current directory leave the base as it is. */
  lemma JoinNeutral(base: PurePath)
    ensures GetDataDir(base, "") == base
    ensures GetDataDir(base, ".") == base
  {
    assert "."[1..] == [];
    assert SplitSlash("."[1..]) == [""];
    assert "."[0] == '.' && ['.'] + "" == ".";
    assert SplitSlash(".") == ["."];
    assert base.parts + [] == base.parts;
  }
}
