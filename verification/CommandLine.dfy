/**
 The command line the Windows helper hands to the service manager
 (native/windows/roost-win-helper.cpp): `quoteArg` against the documented rules of CommandLineToArgvW,
 by which Windows splits that line again.
 */
module CommandLine {

  import opened Basics

  type Text = seq<Wide>

  const TAB: Wide := 0x09
  const NEWLINE: Wide := 0x0A
  const VERTICAL_TAB: Wide := 0x0B
  const SPACE: Wide := 0x20
  const QUOTE: Wide := 0x22
  const BACKSLASH: Wide := 0x5C
  const NUL: Wide := 0

  function Slashes(n: nat): (s: Text)
    ensures |s| == n
  {
    seq(n, i => BACKSLASH)
  }

  // ---------------------------------------------------------------------------------------------
  // Quoting
  // ---------------------------------------------------------------------------------------------

  predicate NeedsQuotes(arg: Text) {
    arg == [] || SPACE in arg || TAB in arg || NEWLINE in arg || VERTICAL_TAB in arg || QUOTE in arg
  }

  /** What follows the opening quote when `slashes` backslashes are still unwritten. */
  function Escaped(arg: Text, slashes: nat): Text {
    if arg == [] then Slashes(2 * slashes) + [QUOTE]
    else if arg[0] == BACKSLASH then Escaped(arg[1..], slashes + 1)
    else if arg[0] == QUOTE then Slashes(2 * slashes + 1) + [QUOTE] + Escaped(arg[1..], 0)
    else Slashes(slashes) + [arg[0]] + Escaped(arg[1..], 0)
  }

  function Quoted(arg: Text): Text {
    if NeedsQuotes(arg) then [QUOTE] + Escaped(arg, 0) else arg
  }

  /** Every argument after the first follows one space. */
  function JoinedAfter(args: seq<Text>): Text {
    if args == [] then [] else [SPACE] + Quoted(args[0]) + JoinedAfter(args[1..])
  }

  function Joined(args: seq<Text>): Text {
    if args == [] then [] else Quoted(args[0]) + JoinedAfter(args[1..])
  }

  method QuoteArg(argument: Text) returns (out: Text)
    ensures out == Quoted(argument)
  {
    if argument != [] && SPACE !in argument && TAB !in argument && NEWLINE !in argument &&
      VERTICAL_TAB !in argument && QUOTE !in argument
    {
      return argument;
    }
    out := [QUOTE];
    var slashes := 0;
    for i := 0 to |argument|
      invariant out + Escaped(argument[i..], slashes) == [QUOTE] + Escaped(argument, 0)
    {
      var ch := argument[i];
      assert argument[i..][1..] == argument[i + 1..];
      if ch == BACKSLASH {
        slashes := slashes + 1;
      } else if ch == QUOTE {
        out := out + Slashes(slashes * 2 + 1) + [QUOTE];
        slashes := 0;
      } else {
        out := out + Slashes(slashes) + [ch];
        slashes := 0;
      }
    }
    out := out + Slashes(slashes * 2) + [QUOTE];
  }

  lemma {:induction false} JoinedAfterOneMore(args: seq<Text>, last: Text)
    ensures JoinedAfter(args + [last]) == JoinedAfter(args) + [SPACE] + Quoted(last)
  {
    if args == [] {
      assert JoinedAfter([last]) == [SPACE] + Quoted(last) + JoinedAfter([]);
    } else {
      JoinedAfterOneMore(args[1..], last);
      assert (args + [last])[1..] == args[1..] + [last];
    }
  }

  lemma JoinedOneMore(args: seq<Text>, last: Text)
    ensures Joined(args + [last]) == Joined(args) + (if args == [] then [] else [SPACE]) + Quoted(last)
  {
    if args != [] {
      JoinedAfterOneMore(args[1..], last);
      assert (args + [last])[1..] == args[1..] + [last];
    }
  }

  method JoinArgs(argv: seq<Text>) returns (command: Text)
    ensures command == Joined(argv)
  {
    command := [];
    for i := 0 to |argv|
      invariant command == Joined(argv[..i])
    {
      assert argv[..i + 1] == argv[..i] + [argv[i]];
      JoinedOneMore(argv[..i], argv[i]);
      if i > 0 { command := command + [SPACE]; }
      var quoted := QuoteArg(argv[i]);
      command := command + quoted;
    }
    assert argv[..|argv|] == argv;
  }

  // ---------------------------------------------------------------------------------------------
  // Splitting, by the documented rules
  // ---------------------------------------------------------------------------------------------

  predicate IsBlank(c: Wide) {
    c == SPACE || c == TAB
  }

  /** Blanks end an argument; so does the end of the line. */
  predicate EndsHere(s: Text) {
    s == [] || IsBlank(s[0])
  }

  /**
   Reads one argument after the first: its text and what follows it. 2n backslashes before a quote are
   n backslashes and a delimiter, 2n + 1 are n backslashes and a literal quote, all others are literal.
   `pairs` adds the C runtime's rule that two quotes inside a quoted part are one literal quote.
   */
  function Argument(s: Text, slashes: nat, quoting: bool, pairs: bool): (r: (Text, Text))
    ensures |r.1| <= |s|
    ensures s != [] && (quoting || !IsBlank(s[0])) ==> |r.1| < |s|
  {
    if s == [] then (Slashes(slashes), [])
    else if s[0] == BACKSLASH then Argument(s[1..], slashes + 1, quoting, pairs)
    else if s[0] == QUOTE then
      if slashes % 2 == 1 then
        var (text, rest) := Argument(s[1..], 0, quoting, pairs);
        (Slashes(slashes / 2) + [QUOTE] + text, rest)
      else if pairs && quoting && |s| > 1 && s[1] == QUOTE then
        var (text, rest) := Argument(s[2..], 0, quoting, pairs);
        (Slashes(slashes / 2) + [QUOTE] + text, rest)
      else
        var (text, rest) := Argument(s[1..], 0, !quoting, pairs);
        (Slashes(slashes / 2) + text, rest)
    else if IsBlank(s[0]) && !quoting then (Slashes(slashes), s)
    else
      var (text, rest) := Argument(s[1..], 0, quoting, pairs);
      (Slashes(slashes) + [s[0]] + text, rest)
  }

  function Arguments(s: Text, pairs: bool): seq<Text>
    decreases |s|
  {
    if s == [] then []
    else if IsBlank(s[0]) then Arguments(s[1..], pairs)
    else
      var (text, rest) := Argument(s, 0, false, pairs);
      [text] + Arguments(rest, pairs)
  }

  /** The text before the first quote, and what follows that quote. */
  function UpToQuote(s: Text): (r: (Text, Text)) {
    if s == [] then ([], [])
    else if s[0] == QUOTE then ([], s[1..])
    else
      var (text, rest) := UpToQuote(s[1..]);
      ([s[0]] + text, rest)
  }

  function UpToBlank(s: Text): (r: (Text, Text)) {
    if EndsHere(s) then ([], s)
    else
      var (text, rest) := UpToBlank(s[1..]);
      ([s[0]] + text, rest)
  }

  /** The program name has its own rule: quotes delimit it and backslashes are literal. */
  function ProgramName(s: Text): (Text, Text) {
    if s != [] && s[0] == QUOTE then UpToQuote(s[1..]) else UpToBlank(s)
  }

  function UpToNul(s: Text): Text {
    if s == [] || s[0] == NUL then [] else [s[0]] + UpToNul(s[1..])
  }

  /** `CommandLineToArgvW` of a NUL-terminated line. */
  function Split(line: Text, pairs: bool): seq<Text> {
    var (name, rest) := ProgramName(UpToNul(line));
    [name] + Arguments(rest, pairs)
  }

  lemma Regroup(a: Text, b: Text, c: Text, d: Text)
    ensures (a + b + c) + d == (a + b) + (c + d)
  {
  }

  /** `slashes` backslashes, then the argument from its first character on. */
  lemma Rejoin(arg: Text, slashes: nat)
    requires arg != []
    ensures (Slashes(slashes) + [arg[0]]) + (Slashes(0) + arg[1..]) == Slashes(slashes) + arg
  {
  }

  // ---------------------------------------------------------------------------------------------
  // Arguments come back
  // ---------------------------------------------------------------------------------------------

  lemma {:induction false} SlashesAreCounted(n: nat, s: Text, slashes: nat, quoting: bool, pairs: bool)
    ensures Argument(Slashes(n) + s, slashes, quoting, pairs) == Argument(s, slashes + n, quoting, pairs)
  {
    if n == 0 {
      assert Slashes(0) + s == s;
    } else {
      SlashesAreCounted(n - 1, s, slashes + 1, quoting, pairs);
      assert (Slashes(n) + s)[1..] == Slashes(n - 1) + s;
    }
  }

  lemma EndsTheArgument(rest: Text, slashes: nat, pairs: bool)
    requires EndsHere(rest)
    ensures Argument(rest, slashes, false, pairs) == (Slashes(slashes), rest)
  {
  }

  /** Inside quotes, `n` backslashes before an ordinary character are literal. */
  lemma OrdinaryReadsBack(c: Wide, n: nat, tail: Text, pairs: bool)
    requires c != BACKSLASH && c != QUOTE
    ensures var read := Argument(tail, 0, true, pairs);
      Argument(Slashes(n) + [c] + tail, 0, true, pairs) == (Slashes(n) + [c] + read.0, read.1)
  {
    var s := [c] + tail;
    assert Slashes(n) + [c] + tail == Slashes(n) + s && s[1..] == tail;
    SlashesAreCounted(n, s, 0, true, pairs);
  }

  /** Inside quotes, 2n + 1 backslashes before a quote are n backslashes and that quote. */
  lemma QuoteReadsBack(n: nat, tail: Text, pairs: bool)
    ensures var read := Argument(tail, 0, true, pairs);
      Argument(Slashes(2 * n + 1) + [QUOTE] + tail, 0, true, pairs) == (Slashes(n) + [QUOTE] + read.0, read.1)
  {
    var s := [QUOTE] + tail;
    assert Slashes(2 * n + 1) + [QUOTE] + tail == Slashes(2 * n + 1) + s && s[1..] == tail;
    SlashesAreCounted(2 * n + 1, s, 0, true, pairs);
    assert (2 * n + 1) / 2 == n && (2 * n + 1) % 2 == 1;
    assert Argument(s, 2 * n + 1, true, pairs).0 == Slashes(n) + [QUOTE] + Argument(tail, 0, true, pairs).0;
  }

  /** 2n backslashes before the closing quote are n backslashes, and the argument ends. */
  lemma ClosingReadsBack(n: nat, rest: Text, pairs: bool)
    requires EndsHere(rest)
    ensures Argument(Slashes(2 * n) + [QUOTE] + rest, 0, true, pairs) == (Slashes(n), rest)
  {
    var s := [QUOTE] + rest;
    assert Slashes(2 * n) + [QUOTE] + rest == Slashes(2 * n) + s && s[1..] == rest;
    SlashesAreCounted(2 * n, s, 0, true, pairs);
    EndsTheArgument(rest, 0, pairs);
    assert Slashes(n) + Slashes(0) == Slashes(n);
  }

  /** Reading what `quoteArg` wrote after its opening quote. */
  lemma {:induction false} EscapedReadsBack(arg: Text, slashes: nat, rest: Text, pairs: bool)
    requires EndsHere(rest)
    ensures Argument(Escaped(arg, slashes) + rest, 0, true, pairs) == (Slashes(slashes) + arg, rest)
  {
    if arg == [] {
      ClosingReadsBack(slashes, rest, pairs);
      assert Slashes(slashes) + arg == Slashes(slashes);
    } else if arg[0] == BACKSLASH {
      EscapedReadsBack(arg[1..], slashes + 1, rest, pairs);
      assert Slashes(slashes + 1) + arg[1..] == Slashes(slashes) + arg;
    } else {
      EscapedReadsBack(arg[1..], 0, rest, pairs);
      EscapedReadsOneMore(arg, slashes, rest, pairs);
    }
  }

  lemma EscapedReadsOneMore(arg: Text, slashes: nat, rest: Text, pairs: bool)
    requires arg != [] && arg[0] != BACKSLASH
    requires Argument(Escaped(arg[1..], 0) + rest, 0, true, pairs) == (Slashes(0) + arg[1..], rest)
    ensures Argument(Escaped(arg, slashes) + rest, 0, true, pairs) == (Slashes(slashes) + arg, rest)
  {
    var escaped := Escaped(arg[1..], 0);
    Rejoin(arg, slashes);
    if arg[0] == QUOTE {
      QuoteReadsBack(slashes, escaped + rest, pairs);
      Regroup(Slashes(2 * slashes + 1), [QUOTE], escaped, rest);
    } else {
      OrdinaryReadsBack(arg[0], slashes, escaped + rest, pairs);
      Regroup(Slashes(slashes), [arg[0]], escaped, rest);
    }
  }

  lemma {:induction false} PlainReadsBack(arg: Text, slashes: nat, rest: Text, pairs: bool)
    requires EndsHere(rest) && QUOTE !in arg && SPACE !in arg && TAB !in arg
    ensures Argument(arg + rest, slashes, false, pairs) == (Slashes(slashes) + arg, rest)
  {
    if arg == [] {
      assert arg + rest == rest && Slashes(slashes) + arg == Slashes(slashes);
    } else {
      assert (arg + rest)[1..] == arg[1..] + rest;
      if arg[0] == BACKSLASH {
        PlainReadsBack(arg[1..], slashes + 1, rest, pairs);
        assert Slashes(slashes + 1) + arg[1..] == Slashes(slashes) + arg;
      } else {
        PlainReadsBack(arg[1..], 0, rest, pairs);
        assert Slashes(slashes) + [arg[0]] + (Slashes(0) + arg[1..]) == Slashes(slashes) + arg;
      }
    }
  }

  /** An opening quote starts the quoted part. */
  lemma OpeningReadsBack(s: Text, pairs: bool)
    ensures Argument([QUOTE] + s, 0, false, pairs) == Argument(s, 0, true, pairs)
  {
    var line := [QUOTE] + s;
    assert line[1..] == s;
    var read := Argument(s, 0, true, pairs);
    assert Slashes(0) + read.0 == read.0;
  }

  lemma NoSlashes(arg: Text)
    ensures Slashes(0) + arg == arg
  {
    assert Slashes(0) == [];
  }

  lemma InQuotesReadsBack(arg: Text, rest: Text, pairs: bool)
    requires EndsHere(rest)
    ensures Argument(([QUOTE] + Escaped(arg, 0)) + rest, 0, false, pairs) == (arg, rest)
  {
    NoSlashes(arg);
    EscapedReadsBack(arg, 0, rest, pairs);
    OpeningReadsBack(Escaped(arg, 0) + rest, pairs);
    assert ([QUOTE] + Escaped(arg, 0)) + rest == [QUOTE] + (Escaped(arg, 0) + rest);
  }

  /** Whatever the argument, its quoted form is read back whole and ends where it was meant to. */
  lemma QuotedReadsBack(arg: Text, rest: Text, pairs: bool)
    requires EndsHere(rest)
    ensures Argument(Quoted(arg) + rest, 0, false, pairs) == (arg, rest)
  {
    NoSlashes(arg);
    if NeedsQuotes(arg) {
      InQuotesReadsBack(arg, rest, pairs);
    } else {
      PlainReadsBack(arg, 0, rest, pairs);
    }
  }

  lemma QuotedStartsAnArgument(arg: Text)
    ensures Quoted(arg) != [] && !IsBlank(Quoted(arg)[0])
  {
    if !NeedsQuotes(arg) { assert arg[0] in arg; }
  }

  lemma {:induction false} ArgumentsReadBack(args: seq<Text>, pairs: bool)
    ensures Arguments(JoinedAfter(args), pairs) == args
  {
    if args != [] {
      var rest := JoinedAfter(args[1..]);
      var line := Quoted(args[0]) + rest;
      QuotedReadsBack(args[0], rest, pairs);
      QuotedStartsAnArgument(args[0]);
      ArgumentsReadBack(args[1..], pairs);
      assert JoinedAfter(args) == [SPACE] + line;
      assert JoinedAfter(args)[1..] == line;
      assert args == [args[0]] + args[1..];
    }
  }

  // ---------------------------------------------------------------------------------------------
  // The program name
  // ---------------------------------------------------------------------------------------------

  /** The backslashes at the end of `arg`, when `slashes` of them precede it. */
  function Trailing(arg: Text, slashes: nat): nat {
    if arg == [] then slashes
    else if arg[0] == BACKSLASH then Trailing(arg[1..], slashes + 1)
    else Trailing(arg[1..], 0)
  }

  lemma {:induction false} TrailingIsPositiveIff(arg: Text, slashes: nat)
    ensures Trailing(arg, slashes) > 0 <==> (if arg == [] then slashes > 0 else arg[|arg| - 1] == BACKSLASH)
  {
    if arg != [] {
      TrailingIsPositiveIff(arg[1..], if arg[0] == BACKSLASH then slashes + 1 else 0);
    }
  }

  lemma {:induction false} UpToQuoteSkips(prefix: Text, s: Text)
    requires QUOTE !in prefix
    ensures UpToQuote(prefix + s) == (prefix + UpToQuote(s).0, UpToQuote(s).1)
  {
    if prefix == [] {
      assert prefix + s == s && prefix + UpToQuote(s).0 == UpToQuote(s).0;
    } else {
      UpToQuoteSkips(prefix[1..], s);
      assert (prefix + s)[1..] == prefix[1..] + s;
      assert [prefix[0]] + (prefix[1..] + UpToQuote(s).0) == prefix + UpToQuote(s).0;
    }
  }

  /** Quoted, a name without quotes comes back with its trailing backslashes doubled. */
  lemma {:induction false} EscapedNameReadsAs(arg: Text, slashes: nat, rest: Text)
    requires QUOTE !in arg
    ensures UpToQuote(Escaped(arg, slashes) + rest) == (Slashes(slashes) + arg + Slashes(Trailing(arg, slashes)), rest)
  {
    if arg == [] {
      var text := [QUOTE] + rest;
      assert Escaped(arg, slashes) + rest == Slashes(2 * slashes) + text && text[1..] == rest;
      UpToQuoteSkips(Slashes(2 * slashes), text);
      assert Slashes(2 * slashes) + [] == Slashes(slashes) + arg + Slashes(slashes);
    } else if arg[0] == BACKSLASH {
      EscapedNameReadsAs(arg[1..], slashes + 1, rest);
      assert Slashes(slashes + 1) + arg[1..] == Slashes(slashes) + arg;
    } else {
      EscapedNameReadsAs(arg[1..], 0, rest);
      EscapedNameReadsOneMore(arg, slashes, rest);
    }
  }

  lemma EscapedNameReadsOneMore(arg: Text, slashes: nat, rest: Text)
    requires arg != [] && arg[0] != BACKSLASH && arg[0] != QUOTE
    requires UpToQuote(Escaped(arg[1..], 0) + rest) == (Slashes(0) + arg[1..] + Slashes(Trailing(arg[1..], 0)), rest)
    ensures UpToQuote(Escaped(arg, slashes) + rest) == (Slashes(slashes) + arg + Slashes(Trailing(arg, slashes)), rest)
  {
    var escaped, more := Escaped(arg[1..], 0), Slashes(Trailing(arg, slashes));
    Regroup(Slashes(slashes), [arg[0]], escaped, rest);
    UpToQuoteSkips(Slashes(slashes) + [arg[0]], escaped + rest);
    Rejoin(arg, slashes);
    Regroup(Slashes(slashes), [arg[0]], Slashes(0) + arg[1..], more);
  }

  lemma {:induction false} NamesHaveNoQuote(s: Text)
    ensures QUOTE !in UpToQuote(s).0
  {
    if s != [] && s[0] != QUOTE { NamesHaveNoQuote(s[1..]); }
  }

  lemma {:induction false} PlainNameReadsBack(arg: Text, rest: Text)
    requires EndsHere(rest) && SPACE !in arg && TAB !in arg
    ensures UpToBlank(arg + rest) == (arg, rest)
  {
    if arg == [] {
      assert arg + rest == rest;
    } else {
      PlainNameReadsBack(arg[1..], rest);
      assert (arg + rest)[1..] == arg[1..] + rest;
      assert [arg[0]] + arg[1..] == arg;
    }
  }

  /** The program name survives unless it holds a quote, or is quoted and ends in a backslash. */
  predicate NameSurvives(name: Text) {
    QUOTE !in name && (NeedsQuotes(name) && name != [] ==> name[|name| - 1] != BACKSLASH)
  }

  /** A quoted name without quotes of its own. */
  lemma QuotedNameReadsBackIff(name: Text, rest: Text)
    requires QUOTE !in name && NeedsQuotes(name)
    ensures var read := UpToQuote(Escaped(name, 0) + rest);
      (read.0 == name <==> NameSurvives(name)) && read.1 == rest
  {
    var more := Slashes(Trailing(name, 0));
    EscapedNameReadsAs(name, 0, rest);
    TrailingIsPositiveIff(name, 0);
    var none := Slashes(0);
    assert none + name == name;
    assert more == [] ==> name + more == name;
    assert |name + more| == |name| + Trailing(name, 0);
  }

  lemma ProgramNameReadsBackIff(name: Text, rest: Text)
    requires EndsHere(rest)
    ensures ProgramName(Quoted(name) + rest).0 == name <==> NameSurvives(name)
    ensures NameSurvives(name) ==> ProgramName(Quoted(name) + rest).1 == rest
  {
    var line := Quoted(name) + rest;
    if NeedsQuotes(name) {
      NameInQuotes(Escaped(name, 0), rest);
      if QUOTE in name { NamesHaveNoQuote(Escaped(name, 0) + rest); } else { QuotedNameReadsBackIff(name, rest); }
    } else {
      PlainNameReadsBack(name, rest);
      assert line[0] == name[0];
      assert ProgramName(line) == UpToBlank(line);
    }
  }

  lemma NameInQuotes(escaped: Text, rest: Text)
    ensures ProgramName(([QUOTE] + escaped) + rest) == UpToQuote(escaped + rest)
  {
    var line := ([QUOTE] + escaped) + rest;
    assert line[1..] == escaped + rest;
  }

  // ---------------------------------------------------------------------------------------------
  // NUL ends the line
  // ---------------------------------------------------------------------------------------------

  predicate NulFree(args: seq<Text>) {
    forall i :: 0 <= i < |args| ==> NUL !in args[i]
  }

  lemma {:induction false} UpToNulIsNulFree(s: Text)
    ensures NUL !in UpToNul(s)
    ensures NUL !in s ==> UpToNul(s) == s
  {
    if s != [] && s[0] != NUL {
      UpToNulIsNulFree(s[1..]);
    }
  }

  lemma {:induction false} ArgumentIsNulFree(s: Text, slashes: nat, quoting: bool, pairs: bool)
    requires NUL !in s
    ensures NUL !in Argument(s, slashes, quoting, pairs).0 && NUL !in Argument(s, slashes, quoting, pairs).1
    decreases |s|
  {
    if s != [] {
      if s[0] == BACKSLASH {
        ArgumentIsNulFree(s[1..], slashes + 1, quoting, pairs);
      } else if s[0] == QUOTE {
        ArgumentIsNulFree(s[1..], 0, !quoting, pairs);
        ArgumentIsNulFree(s[1..], 0, quoting, pairs);
        if |s| > 1 { ArgumentIsNulFree(s[2..], 0, quoting, pairs); }
      } else {
        ArgumentIsNulFree(s[1..], 0, quoting, pairs);
      }
    }
  }

  lemma {:induction false} ArgumentsAreNulFree(s: Text, pairs: bool)
    requires NUL !in s
    ensures NulFree(Arguments(s, pairs))
    decreases |s|
  {
    if s != [] {
      if IsBlank(s[0]) {
        ArgumentsAreNulFree(s[1..], pairs);
      } else {
        ArgumentIsNulFree(s, 0, false, pairs);
        ArgumentsAreNulFree(Argument(s, 0, false, pairs).1, pairs);
      }
    }
  }

  lemma {:induction false} NameIsNulFree(s: Text)
    requires NUL !in s
    ensures NUL !in UpToQuote(s).0 && NUL !in UpToQuote(s).1 && NUL !in UpToBlank(s).0 && NUL !in UpToBlank(s).1
  {
    if s != [] { NameIsNulFree(s[1..]); }
  }

  lemma SplitIsNulFree(line: Text, pairs: bool)
    ensures NulFree(Split(line, pairs))
  {
    var s := UpToNul(line);
    UpToNulIsNulFree(line);
    NameIsNulFree(s);
    if s != [] { NameIsNulFree(s[1..]); }
    ArgumentsAreNulFree(ProgramName(s).1, pairs);
  }

  lemma {:induction false} EscapedIsNulFree(arg: Text, slashes: nat)
    requires NUL !in arg
    ensures NUL !in Escaped(arg, slashes)
  {
    if arg != [] { EscapedIsNulFree(arg[1..], if arg[0] == BACKSLASH then slashes + 1 else 0); }
  }

  lemma {:induction false} JoinedIsNulFree(args: seq<Text>)
    requires NulFree(args)
    ensures NUL !in JoinedAfter(args)
  {
    if args != [] {
      EscapedIsNulFree(args[0], 0);
      JoinedIsNulFree(args[1..]);
    }
  }

  // ---------------------------------------------------------------------------------------------
  // The round trip
  // ---------------------------------------------------------------------------------------------

  lemma NulFreeSplit(line: Text, pairs: bool)
    requires NUL !in line
    ensures Split(line, pairs) == [ProgramName(line).0] + Arguments(ProgramName(line).1, pairs)
  {
    UpToNulIsNulFree(line);
  }

  lemma NulFreeSplitsBackIff(args: seq<Text>, pairs: bool)
    requires args != [] && NUL !in Joined(args)
    ensures Split(Joined(args), pairs) == args <==> NameSurvives(args[0])
  {
    var name, later := args[0], args[1..];
    var rest := JoinedAfter(later);
    ProgramNameReadsBackIff(name, rest);
    ArgumentsReadBack(later, pairs);
    NulFreeSplit(Joined(args), pairs);
    assert args == [name] + later;
  }

  /**
   Windows splits the joined line into exactly the given arguments if and only if none holds a NUL
   and the program name survives; every later argument always does.
   */
  lemma SplitsBackIff(args: seq<Text>, pairs: bool)
    requires args != []
    ensures Split(Joined(args), pairs) == args <==> NulFree(args) && NameSurvives(args[0])
  {
    if NulFree(args) {
      EscapedIsNulFree(args[0], 0);
      JoinedIsNulFree(args[1..]);
      NulFreeSplitsBackIff(args, pairs);
    } else {
      SplitIsNulFree(Joined(args), pairs);
    }
  }

  /** A program path with a space that ends in a backslash comes back with two. */
  lemma TrailingBackslashIsDoubled()
    ensures ProgramName(Quoted([0x61, SPACE, BACKSLASH])).0 == [0x61, SPACE, BACKSLASH, BACKSLASH]
  {
    var name: Text := [0x61, SPACE, BACKSLASH];
    EscapedNameReadsAs(name, 0, []);
    assert Quoted(name)[1..] == Escaped(name, 0) + [];
    assert name[1..] == [SPACE, BACKSLASH] && name[1..][1..] == [BACKSLASH] && name[1..][1..][1..] == [];
    assert Trailing([BACKSLASH], 0) == 1;
    assert Trailing([SPACE, BACKSLASH], 0) == 1;
    assert Trailing(name, 0) == 1;
    assert Slashes(0) + name + Slashes(1) == [0x61, SPACE, BACKSLASH, BACKSLASH];
  }

}
