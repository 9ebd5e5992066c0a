/** Construction of the sigma lookup table in `init`: the built-in default,
    the `[None]` table of a run without sigma, or one number per
    comma-separated token of the sigma file. */
module SigmaTable {
  import opened Results

  /** One table entry: a Python float, or `None` when sigma is not used. */
  type SigmaValue = Option<real>

  /** The table used when no sigma file is given or the file does not exist. */
  const DefaultTable: seq<SigmaValue> := [Some(10.0), Some(1.25)]

  /** `float(token)` raised ValueError on this token. */
  datatype TableError = BadFloat(token: string)

  /** The number of occurrences of `c` in `s`. */
  function Count(s: string, c: char): (n: nat)
    ensures n <= |s|
    ensures n == 0 <==> c !in s
  {
    if s == [] then 0 else (if s[0] == c then 1 else 0) + Count(s[1..], c)
  }

  /** `s.replace("\n", "")`: every newline removed, nothing else changed. */
  function StripNewlines(s: string): (r: string)
    ensures '\n' !in r
    ensures |r| == |s| - Count(s, '\n')
    ensures forall c :: c != '\n' ==> Count(r, c) == Count(s, c)
    ensures '\n' !in s ==> r == s
  {
    if s == [] then []
    else
      var head := if s[0] == '\n' then [] else [s[0]];
      forall c ensures Count(head + StripNewlines(s[1..]), c)
                       == Count(head, c) + Count(StripNewlines(s[1..]), c) {
        CountConcat(head, StripNewlines(s[1..]), c);
      }
      head + StripNewlines(s[1..])
  }

  /** Stripping works character by character, so it keeps the order of
      what it keeps: stripping a concatenation concatenates the strips. */
  lemma {:induction false} StripNewlinesConcat(a: string, b: string)
    ensures StripNewlines(a + b) == StripNewlines(a) + StripNewlines(b)
  {
    if a == [] {
      assert a + b == b;
    } else {
      assert (a + b)[1..] == a[1..] + b;
      StripNewlinesConcat(a[1..], b);
    }
  }

  lemma {:induction false} CountConcat(a: string, b: string, c: char)
    ensures Count(a + b, c) == Count(a, c) + Count(b, c)
  {
    if a != [] {
      assert (a + b)[1..] == a[1..] + b;
      CountConcat(a[1..], b, c);
    } else {
      assert a + b == b;
    }
  }

  /** `s.split(sep)` for a one-character separator: the maximal runs between
      separators, empty runs included, so there is always at least one. */
  function Split(s: string, sep: char): (tokens: seq<string>)
    ensures |tokens| == Count(s, sep) + 1
    ensures forall i :: 0 <= i < |tokens| ==> sep !in tokens[i]
  {
    if s == [] then [[]]
    else
      var rest := Split(s[1..], sep);
      if s[0] == sep then [[]] + rest
      else [[s[0]] + rest[0]] + rest[1..]
  }

  /** `sep.join(tokens)`, the inverse of `Split`. */
  function Join(tokens: seq<string>, sep: char): string
    requires |tokens| > 0
  {
    if |tokens| == 1 then tokens[0] else tokens[0] + [sep] + Join(tokens[1..], sep)
  }

  /** The tokens of the sigma file text: newlines stripped, split on commas. */
  function FileTokens(text: string): (tokens: seq<string>)
    ensures |tokens| == Count(text, ',') + 1
  {
    Split(StripNewlines(text), ',')
  }

  /** Whether `init` reads the table from the sigma file: a name was given and
      that file exists. */
  predicate UsesSigmaFile(sigmaFile: string, fileExists: bool)
  {
    |sigmaFile| > 0 && fileExists
  }

  /** `float(token)` for every token, in order; the first token that does not
      parse raises ValueError. */
  function ParseAll(tokens: seq<string>, parse: string -> Option<real>): (r: Result<seq<SigmaValue>, TableError>)
    ensures r.Ok? <==> forall i :: 0 <= i < |tokens| ==> parse(tokens[i]).Some?
    ensures r.Ok? ==> |r.value| == |tokens|
    ensures r.Ok? ==> forall i :: 0 <= i < |tokens| ==> r.value[i] == parse(tokens[i])
    ensures r.Err? ==> exists k :: 0 <= k < |tokens| && r.error == BadFloat(tokens[k])
                                   && parse(tokens[k]).None?
                                   && forall j :: 0 <= j < k ==> parse(tokens[j]).Some?
  {
    if tokens == [] then Ok([])
    else
      match parse(tokens[0])
      case None => Err(BadFloat(tokens[0]))
      case Some(v) =>
        match ParseAll(tokens[1..], parse)
        case Err(e) =>
          assert forall i :: 1 <= i < |tokens| ==> tokens[i] == tokens[1..][i - 1];
          Err(e)
        case Ok(rest) => Ok([Some(v)] + rest)
  }

  /** The sigma table `init` builds, as a value. */
  function SigmaTableOf(noSigma: bool, sigmaFile: string, fileExists: bool, fileText: string,
                        parse: string -> Option<real>): Result<seq<SigmaValue>, TableError>
  {
    if noSigma then Ok([None])
    else if !UsesSigmaFile(sigmaFile, fileExists) then Ok(DefaultTable)
    else ParseAll(FileTokens(fileText), parse)
  }

  /** The shape of every table `init` can build: never empty, `[None]`
      exactly when sigma is not used, and otherwise all numbers. */
  predicate WellFormedTable(table: seq<SigmaValue>, noSigma: bool)
  {
    && |table| > 0
    && (noSigma ==> table == [None])
    && (!noSigma ==> forall i :: 0 <= i < |table| ==> table[i].Some?)
  }

  /** Builds the table the way `init` does: the `[None]` table, the default,
      or the file's tokens parsed and appended one by one. */
  method BuildSigmaTable(noSigma: bool, sigmaFile: string, fileExists: bool, fileText: string,
                         parse: string -> Option<real>) returns (r: Result<seq<SigmaValue>, TableError>)
    ensures r == SigmaTableOf(noSigma, sigmaFile, fileExists, fileText, parse)
  {
    if noSigma {
      return Ok([None]);
    }
    if !UsesSigmaFile(sigmaFile, fileExists) {
      return Ok(DefaultTable);
    }
    var tokens := FileTokens(fileText);
    var table: seq<SigmaValue> := [];
    var i := 0;
    while i < |tokens|
      invariant 0 <= i <= |tokens|
      invariant |table| == i
      invariant forall j :: 0 <= j < i ==> parse(tokens[j]).Some? && table[j] == parse(tokens[j])
    {
      var v := parse(tokens[i]);
      if v.None? {
        ghost var spec := ParseAll(tokens, parse);
        assert spec.Err?;
        return Err(BadFloat(tokens[i]));
      }
      table := table + [v];
      i := i + 1;
    }
    assert table == ParseAll(tokens, parse).value;
    r := Ok(table);
  }

  // ---------------------------------------------------------------------
  // Properties of the table
  // ---------------------------------------------------------------------

  /** Every table `init` builds is well formed, and a file table has exactly
      one entry per comma-separated token of the newline-stripped text (commas
      plus one), in file order. */
  lemma SigmaTableShape(noSigma: bool, sigmaFile: string, fileExists: bool, fileText: string,
                        parse: string -> Option<real>)
    requires SigmaTableOf(noSigma, sigmaFile, fileExists, fileText, parse).Ok?
    ensures WellFormedTable(SigmaTableOf(noSigma, sigmaFile, fileExists, fileText, parse).value, noSigma)
    ensures !noSigma && UsesSigmaFile(sigmaFile, fileExists) ==>
              var table := SigmaTableOf(noSigma, sigmaFile, fileExists, fileText, parse).value;
              && |table| == Count(StripNewlines(fileText), ',') + 1
              && forall i :: 0 <= i < |table| ==> table[i] == parse(FileTokens(fileText)[i])
  {
  }

  /** Only a file table can fail to build, and it fails exactly when one of
      its tokens is not a number. */
  lemma SigmaTableFails(noSigma: bool, sigmaFile: string, fileExists: bool, fileText: string,
                        parse: string -> Option<real>)
    ensures SigmaTableOf(noSigma, sigmaFile, fileExists, fileText, parse).Err?
            <==> !noSigma && UsesSigmaFile(sigmaFile, fileExists)
                 && exists k :: 0 <= k < |FileTokens(fileText)| && parse(FileTokens(fileText)[k]).None?
  {
  }

  /** Splitting a separator-free run followed by a separator. */
  lemma {:induction false} SplitAfterToken(a: string, sep: char, b: string)
    requires sep !in a
    ensures Split(a + [sep] + b, sep) == [a] + Split(b, sep)
  {
    if a == [] {
      assert a + [sep] + b == [sep] + b;
      assert ([sep] + b)[1..] == b;
    } else {
      assert (a + [sep] + b)[1..] == a[1..] + [sep] + b;
      SplitAfterToken(a[1..], sep, b);
      assert [a[0]] + a[1..] == a;
    }
  }

  /** A separator-free string is a single token. */
  lemma {:induction false} SplitSingle(a: string, sep: char)
    requires sep !in a
    ensures Split(a, sep) == [a]
  {
    if a != [] {
      SplitSingle(a[1..], sep);
      assert [a[0]] + a[1..] == a;
    }
  }

  /** Joining the tokens of a split gives back the text. */
  lemma {:induction false} JoinSplit(s: string, sep: char)
    ensures Join(Split(s, sep), sep) == s
  {
    if s != [] {
      JoinSplit(s[1..], sep);
      var rest := Split(s[1..], sep);
      if s[0] == sep {
        assert Split(s, sep) == [[]] + rest;
        assert ([[]] + rest)[1..] == rest;
        assert [sep] + s[1..] == s;
      } else {
        var tokens := Split(s, sep);
        assert tokens == [[s[0]] + rest[0]] + rest[1..];
        if |rest| == 1 {
          assert [s[0]] + rest[0] == s;
        } else {
          assert tokens[1..] == rest[1..];
          assert Join(rest, sep) == rest[0] + [sep] + Join(rest[1..], sep);
          assert [s[0]] + s[1..] == s;
        }
      }
    }
  }

  /** Splitting the join of separator-free tokens gives back the tokens. */
  lemma {:induction false} SplitJoin(tokens: seq<string>, sep: char)
    requires |tokens| > 0
    requires forall i :: 0 <= i < |tokens| ==> sep !in tokens[i]
    ensures Split(Join(tokens, sep), sep) == tokens
  {
    if |tokens| == 1 {
      SplitSingle(tokens[0], sep);
    } else {
      SplitJoin(tokens[1..], sep);
      SplitAfterToken(tokens[0], sep, Join(tokens[1..], sep));
      assert [tokens[0]] + tokens[1..] == tokens;
    }
  }
}
