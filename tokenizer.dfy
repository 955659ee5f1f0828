/**
 * The command tokenizer: splits the raw command line into the file to run
 * and its parameter string, honouring one pair of double quotes around the
 * file.
 */
module Tokenizer {
  import opened Text

  /** What to run, and the parameters to hand it. */
  datatype Command = Command(file: string, parameters: string)

  /** The trimmed input opens with a quote that a later quote closes. */
  predicate HasClosingQuote(t: string) {
    |t| > 0 && t[0] == '"' && '"' in t[1..]
  }

  /** `SplitCommand`: trim the input, then split what is left. */
  function SplitCommand(input: string): (c: Command)
    ensures IsTrimmed(c.parameters)
    ensures |c.file| + |c.parameters| <= |Trim(input)|
  {
    SplitTrimmed(Trim(input))
  }

  /** The split of the trimmed command line `t`: a quoted file runs up to
      the next quote, otherwise the file runs up to the first space; what
      follows, trimmed, is the parameter string. A leading quote with no
      partner is an ordinary character of the file. */
  function SplitTrimmed(t: string): (c: Command)
    ensures IsTrimmed(c.parameters)
    ensures |c.file| + |c.parameters| <= |t|
  {
    if |t| == 0 then Command(t, "")
    else
      var idx := if t[0] == '"' then IndexOf(t, '"', 1) else -1;
      if idx > 0 then Command(t[1..idx], Trim(t[idx + 1..]))
      else
        var firstSpace := IndexOf(t, ' ', 0);
        if firstSpace < 0 then Command(t, "")
        else Command(t[..firstSpace], Trim(t[firstSpace + 1..]))
  }

  /** Blank input gives an empty file and empty parameters. */
  lemma SplitBlank(input: string)
    requires IsNullOrWhiteSpace(input)
    ensures SplitCommand(input) == Command("", "")
  {
    BlankIffTrimEmpty(input);
  }

  /** A quoted file: everything strictly between the opening quote and the
      next quote is the file; the rest, trimmed, is the parameter string. */
  lemma SplitQuoted(input: string, file: string, rest: string)
    requires Trim(input) == ['"'] + file + ['"'] + rest
    requires '"' !in file
    ensures SplitCommand(input) == Command(file, Trim(rest))
  {
    QuotedSplitOf(Trim(input), file, rest);
  }

  /** An unquoted file (or one whose leading quote is never closed) ends at
      the first space; the file is non-empty and the parameters are the
      remainder, trimmed. */
  lemma SplitAtSpace(input: string, file: string, rest: string)
    requires Trim(input) == file + [' '] + rest
    requires ' ' !in file
    requires !HasClosingQuote(Trim(input))
    ensures file != []
    ensures SplitCommand(input) == Command(file, Trim(rest))
  {
    SpaceSplitOf(Trim(input), file, rest);
  }

  /** With no closing quote and no space, the whole trimmed input, leading
      quote included, is the file and there are no parameters. */
  lemma SplitWhole(input: string)
    requires Trim(input) != []
    requires ' ' !in Trim(input)
    requires !HasClosingQuote(Trim(input))
    ensures SplitCommand(input) == Command(Trim(input), "")
  {
    WholeSplitOf(Trim(input));
  }

  /** The tokenizer's quirk: an unterminated leading quote stays in the file. */
  lemma UnterminatedQuoteKept(input: string)
    requires |Trim(input)| > 0 && Trim(input)[0] == '"'
    requires !HasClosingQuote(Trim(input))
    ensures |SplitCommand(input).file| > 0 && SplitCommand(input).file[0] == '"'
  {
    var t := Trim(input);
    ClosingQuoteIndex(t);
    if ' ' in t {
      var sp := IndexOf(t, ' ', 0);
      assert sp != 0;
    }
  }

  /** The converse direction for a quoted file: the result reassembles
      the trimmed input as quote, file, quote, and a remainder whose trim is
      the parameter string. */
  lemma QuotedShape(input: string)
    requires HasClosingQuote(Trim(input))
    ensures '"' !in SplitCommand(input).file
    ensures var n := |SplitCommand(input).file| + 2;
      n <= |Trim(input)| && Trim(input)[..n] == ['"'] + SplitCommand(input).file + ['"']
    ensures var n := |SplitCommand(input).file| + 2;
      SplitCommand(input).parameters == Trim(Trim(input)[n..])
  {
    QuotedShapeOf(Trim(input));
  }

  /** The converse direction for an unquoted file that has a space after
      it: the file is non-empty, holds no space, and is followed in the
      trimmed input by a space and a remainder whose trim is the parameter
      string. */
  lemma SpaceShape(input: string)
    requires Trim(input) != [] && !HasClosingQuote(Trim(input)) && ' ' in Trim(input)
    ensures ' ' !in SplitCommand(input).file && SplitCommand(input).file != []
    ensures var n := |SplitCommand(input).file| + 1;
      n <= |Trim(input)| && Trim(input)[..n] == SplitCommand(input).file + [' ']
    ensures var n := |SplitCommand(input).file| + 1;
      SplitCommand(input).parameters == Trim(Trim(input)[n..])
  {
    SpaceShapeOf(Trim(input));
  }

  /** A name and its arguments, such as `notepad file.txt`: a name that
      holds no space and does not open with a quote, a space, and a trimmed
      argument string split into exactly that name and those arguments. */
  lemma NameThenArguments(name: string, args: string)
    requires name != [] && ' ' !in name && name[0] != '"' && !IsWhiteSpace(name[0])
    requires IsTrimmed(args) && args != []
    ensures SplitCommand(name + " " + args) == Command(name, args)
  {
    var t := name + " " + args;
    assert t == name + [' '] + args;
    assert t[0] == name[0] && t[|t| - 1] == args[|args| - 1];
    TrimOfTrimmed(t);
    TrimOfTrimmed(args);
    SpaceSplitOf(t, name, args);
  }

  /** A quoted path and its arguments, such as
      `"C:\Program Files\app.exe" --flag`: the path, spaces and all, comes
      out without its quotes, and the arguments after the closing quote come
      out trimmed. */
  lemma QuotedPathThenArguments(path: string, args: string)
    requires '"' !in path
    requires IsTrimmed(args) && args != []
    ensures SplitCommand("\"" + path + "\" " + args) == Command(path, args)
  {
    var t := "\"" + path + "\" " + args;
    assert t == ['"'] + path + ['"'] + (" " + args);
    assert t[0] == '"';
    assert t[|t| - 1] == args[|args| - 1];
    TrimOfTrimmed(t);
    QuotedSplitOf(t, path, " " + args);
    TrimUnique(" ", args, []);
    assert " " + args + [] == " " + args;
  }

  // The same facts about `SplitTrimmed` on an arbitrary trimmed string.

  lemma QuotedSplitOf(t: string, file: string, rest: string)
    requires t == ['"'] + file + ['"'] + rest
    requires '"' !in file
    ensures SplitTrimmed(t) == Command(file, Trim(rest))
  {
    var idx := IndexOf(t, '"', 1);
    assert t[|file| + 1] == '"';
    assert t[1..idx] == file;
    assert t[idx + 1..] == rest;
  }

  lemma SpaceSplitOf(t: string, file: string, rest: string)
    requires t == file + [' '] + rest
    requires ' ' !in file
    requires !HasClosingQuote(t)
    requires IsTrimmed(t)
    ensures file != []
    ensures SplitTrimmed(t) == Command(file, Trim(rest))
  {
    assert t[|file|] == ' ';
    ClosingQuoteIndex(t);
    var sp := IndexOf(t, ' ', 0);
    assert t[..sp] == file;
    assert t[sp + 1..] == rest;
  }

  lemma WholeSplitOf(t: string)
    requires t != [] && ' ' !in t && !HasClosingQuote(t)
    ensures SplitTrimmed(t) == Command(t, "")
  {
    ClosingQuoteIndex(t);
  }

  lemma QuotedShapeOf(t: string)
    requires HasClosingQuote(t)
    ensures var c := SplitTrimmed(t);
      && '"' !in c.file
      && t[..|c.file| + 2] == ['"'] + c.file + ['"']
      && c.parameters == Trim(t[|c.file| + 2..])
  {
    ClosingQuoteIndex(t);
    var idx := IndexOf(t, '"', 1);
    assert SplitTrimmed(t) == Command(t[1..idx], Trim(t[idx + 1..]));
    NotInSlice(t, '"', 1, idx);
    PrefixParts(t, idx);
  }

  lemma SpaceShapeOf(t: string)
    requires t != [] && !HasClosingQuote(t) && ' ' in t
    requires IsTrimmed(t)
    ensures var c := SplitTrimmed(t);
      && ' ' !in c.file && c.file != []
      && t[..|c.file| + 1] == c.file + [' ']
      && c.parameters == Trim(t[|c.file| + 1..])
  {
    ClosingQuoteIndex(t);
    var sp := IndexOf(t, ' ', 0);
    assert sp != 0;
    assert SplitTrimmed(t) == Command(t[..sp], Trim(t[sp + 1..]));
    NotInSlice(t, ' ', 0, sp);
    PrefixParts(t, sp);
  }

  lemma ClosingQuoteIndex(t: string)
    requires |t| > 0
    ensures t[0] == '"' ==> (HasClosingQuote(t) <==> IndexOf(t, '"', 1) > 0)
  {
    if t[0] == '"' {
      var idx := IndexOf(t, '"', 1);
      if idx > 0 {
        assert t[1..][idx - 1] == '"';
      }
    }
  }

  lemma PrefixParts(t: string, n: nat)
    requires 0 < n < |t|
    ensures t[..n + 1] == [t[0]] + t[1..n] + [t[n]]
    ensures t[..n + 1] == t[..n] + [t[n]]
  {
  }

  lemma NotInSlice(t: string, ch: char, from: nat, upto: nat)
    requires from <= upto <= |t|
    requires forall i :: from <= i < upto ==> t[i] != ch
    ensures ch !in t[from..upto]
  {
  }
}
