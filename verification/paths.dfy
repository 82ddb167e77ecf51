/** Where an item is written: the year/month directory under the output root,
    and the file name cleaned of path separators. */
module Paths {
  import opened Data
  import opened Text

  /** `buildPath`: `<outputDir>/<year>/<month as two digits>`. */
  function BuildPath(outputDir: string, createdAt: Timestamp): string
  {
    outputDir + "/" + IntToString(createdAt.year) + "/" + ZeroPad2(createdAt.month)
  }

  /** `nameCleaner` as written: the space substitution is computed and then
      discarded, because the second `ReplaceAll` starts again from `input`. */
  function NameCleaner(input: string): string
  {
    var spacesReplaced := ReplaceChar(input, ' ', '_');
    ReplaceChar(input, '/', '_')
  }

  /** The intent that line 116's space substitution shows: every space and
      every slash becomes '_', and every other character is kept. */
  function SanitizeName(input: string): (r: string)
    ensures |r| == |input|
    ensures forall i :: 0 <= i < |input| ==> r[i] == (if input[i] == ' ' || input[i] == '/' then '_' else input[i])
    ensures ' ' !in r && '/' !in r
  {
    ReplaceChar(ReplaceChar(input, ' ', '_'), '/', '_')
  }

  /** The directory splits back into its parts: the output root, the year
      (read back from its decimal text) and the month (read back from its two
      digits). */
  lemma BuildPathReadsBack(outputDir: string, createdAt: Timestamp)
    ensures var p := BuildPath(outputDir, createdAt);
      var y := IntToString(createdAt.year);
      && |p| == |outputDir| + |y| + 4
      && p[..|outputDir| + 1] == outputDir + "/"
      && p[|p| - 3] == '/'
      && AllDigits(p[|p| - 2..]) && ParseNat(p[|p| - 2..]) == createdAt.month
      && Numeral(p[|outputDir| + 1..|p| - 3])
      && ParseInt(p[|outputDir| + 1..|p| - 3]) == createdAt.year
      && '/' !in p[|outputDir| + 1..|p| - 3]
  {
    var p := BuildPath(outputDir, createdAt);
    var y := IntToString(createdAt.year);
    var m := ZeroPad2(createdAt.month);
    ZeroPad2Exact(createdAt.month);
    ParseIntToString(createdAt.year);
    IntToStringInjective(createdAt.year, createdAt.year);
    assert p == (outputDir + "/") + y + "/" + m;
    assert p[|p| - 2..] == m;
    assert p[|outputDir| + 1..|p| - 3] == y;
  }

  /** Distinct (year, month) pairs land in distinct directories of the same root. */
  lemma BuildPathInjective(outputDir: string, a: Timestamp, b: Timestamp)
    requires BuildPath(outputDir, a) == BuildPath(outputDir, b)
    ensures a.year == b.year && a.month == b.month
  {
    BuildPathReadsBack(outputDir, a);
    BuildPathReadsBack(outputDir, b);
  }

  /** The case pinned down by the repository's test: 1994-05-20 under "base". */
  lemma BuildPathExample(instant: int)
    ensures BuildPath("base", Timestamp(1994, 5, instant)) == "base/1994/05"
  {
    assert NatToString(1994) == NatToString(199) + ['4'];
    assert NatToString(199) == NatToString(19) + ['9'];
    assert NatToString(19) == NatToString(1) + ['9'];
  }

  /** What the code actually does: the length is kept, every '/' becomes '_',
      and every other character (spaces included) is left as it was. */
  lemma NameCleanerReplacesOnlySlashes(input: string)
    ensures var r := NameCleaner(input);
      && |r| == |input|
      && '/' !in r
      && forall i :: 0 <= i < |input| ==> r[i] == (if input[i] == '/' then '_' else input[i])
  {
  }

  /** Cleaning a cleaned name changes nothing. */
  lemma NameCleanerIdempotent(input: string)
    ensures NameCleaner(NameCleaner(input)) == NameCleaner(input)
  {
    var r := NameCleaner(input);
    NameCleanerReplacesOnlySlashes(input);
    NameCleanerReplacesOnlySlashes(r);
  }

  /** The cleaner as written and `SanitizeName` agree exactly on names without
      a space; a name with a space keeps it. */
  lemma NameCleanerMatchesIntentIff(input: string)
    ensures NameCleaner(input) == SanitizeName(input) <==> ' ' !in input
    ensures ' ' in input ==> ' ' in NameCleaner(input)
  {
    NameCleanerReplacesOnlySlashes(input);
    if ' ' in input {
      var i :| 0 <= i < |input| && input[i] == ' ';
      assert NameCleaner(input)[i] == ' ';
    } else {
      assert forall i :: 0 <= i < |input| ==> ReplaceChar(input, ' ', '_')[i] == input[i];
      assert ReplaceChar(input, ' ', '_') == input;
    }
  }

  /** A name is left unchanged exactly when it holds no '/'. */
  lemma NameCleanerFixesPlainNames(input: string)
    ensures NameCleaner(input) == input <==> '/' !in input
    ensures '/' !in NameCleaner(input)
  {
    NameCleanerReplacesOnlySlashes(input);
    if '/' in input {
      var i :| 0 <= i < |input| && input[i] == '/';
      assert NameCleaner(input)[i] != input[i];
    }
  }
}
