/** Splitting a compose command line into arguments: `parseDockerCMD` in
src/utils/DockerComposeToServiceOverride.ts, a global match of `[^\s"']+|"([^"]*)"|'([^']*)'`. */
module CommandTokenizer {
  import opened Wrappers
  import opened Text

  /** A match of the expression in the text that is left: where it ends, the whole match, and the quoted group
      that took part, empty when none did. */
  datatype Match = Match(end: nat, whole: string, group: string)

  predicate IsQuote(c: char) {
    c == '"' || c == '\''
  }

  predicate IsWordChar(c: char) {
    !IsSpace(c) && !IsQuote(c)
  }

  /** `indexOf`; the length when the character does not occur. */
  function IndexOf(s: string, c: char): (i: nat)
    ensures i <= |s| && c !in s[..i] && (i < |s| ==> s[i] == c)
  {
    IndexWhere(s, (x: char) => x == c)
  }

  function WordLength(s: string): (n: nat)
    ensures n <= |s|
  {
    if s == "" || !IsWordChar(s[0]) then 0 else 1 + WordLength(s[1..])
  }

  /** A match that starts right here. A quote with no partner starts none. */
  function MatchHere(s: string): (m: Option<Match>)
    requires s != ""
    ensures m.Some? ==> 0 < m.value.end <= |s|
  {
    if IsQuote(s[0]) then
      var j := IndexOf(s[1..], s[0]);
      if j < |s| - 1 then Some(Match(j + 2, s[..j + 2], s[1..j + 1])) else None
    else if IsSpace(s[0]) then None
    else Some(Match(WordLength(s), s[..WordLength(s)], ""))
  }

  /** `regex.exec`: the leftmost match. */
  function Exec(s: string): (m: Option<Match>)
    ensures m.Some? ==> 0 < m.value.end <= |s|
  {
    if s == "" then None
    else if MatchHere(s).Some? then MatchHere(s)
    else
      var m := Exec(s[1..]);
      if m.None? then None else Some(m.value.(end := m.value.end + 1))
  }

  /** An empty quoted group is falsy, so that the quotes themselves become the argument. */
  function Argument(m: Match): string {
    if m.group != "" then m.group else m.whole
  }

  function Arguments(s: string): seq<string>
    decreases |s|
  {
    var m := Exec(s);
    if m.None? then [] else [Argument(m.value)] + Arguments(s[m.value.end..])
  }

  /** What has been parsed so far, and what the text from `i` on still yields. */
  ghost predicate ParsedUpTo(args: seq<string>, cmd: string, i: nat) {
    i <= |cmd| && args + Arguments(cmd[i..]) == Arguments(cmd)
  }

  lemma ParsedStart(cmd: string)
    ensures ParsedUpTo([], cmd, 0)
  {
    assert cmd[0..] == cmd && [] + Arguments(cmd) == Arguments(cmd);
  }

  lemma ParsedNext(args: seq<string>, cmd: string, i: nat, m: Match)
    requires ParsedUpTo(args, cmd, i) && Exec(cmd[i..]) == Some(m)
    ensures ParsedUpTo(args + [Argument(m)], cmd, i + m.end)
  {
    assert cmd[i..][m.end..] == cmd[i + m.end..];
    assert args + [Argument(m)] + Arguments(cmd[i + m.end..]) == args + ([Argument(m)] + Arguments(cmd[i + m.end..]));
  }

  method ParseDockerCmd(cmd: string) returns (args: seq<string>)
    ensures args == Arguments(cmd)
  {
    args := [];
    var lastIndex := 0;
    ParsedStart(cmd);
    var found := Exec(cmd[lastIndex..]);
    while found.Some?
      invariant ParsedUpTo(args, cmd, lastIndex) && found == Exec(cmd[lastIndex..])
      decreases |cmd| - lastIndex
    {
      ParsedNext(args, cmd, lastIndex, found.value);
      args := args + [Argument(found.value)];
      lastIndex := lastIndex + found.value.end;
      found := Exec(cmd[lastIndex..]);
    }
  }

  // ---------------------------------------------------------------------------------------------
  // Printing
  // ---------------------------------------------------------------------------------------------

  datatype Style = Bare | Quoted(quote: char)

  /** Whether an argument can be printed in a style: bare only if it is one word, quoted only without that quote. */
  predicate Fits(arg: string, style: Style) {
    match style
    case Bare => arg != "" && forall c :: c in arg ==> IsWordChar(c)
    case Quoted(q) => IsQuote(q) && q !in arg
  }

  function PrintArgument(arg: string, style: Style): string {
    match style
    case Bare => arg
    case Quoted(q) => [q] + arg + [q]
  }

  /** Arguments joined with single spaces, each in a style of its own. */
  function Print(args: seq<string>, styles: seq<Style>): string
    requires |args| == |styles|
  {
    if args == [] then ""
    else
      PrintArgument(args[0], styles[0]) + if |args| == 1 then "" else " " + Print(args[1..], styles[1..])
  }

  /** What comes back for a printed argument: itself, except that an empty one comes back as its two quotes. */
  function Echo(arg: string, style: Style): string {
    if arg == "" then PrintArgument(arg, style) else arg
  }

  function Echoes(args: seq<string>, styles: seq<Style>): seq<string>
    requires |args| == |styles|
  {
    seq(|args|, i requires 0 <= i < |args| => Echo(args[i], styles[i]))
  }

  lemma IndexOfAfter(a: string, c: char, rest: string)
    requires c !in a
    ensures IndexOf(a + [c] + rest, c) == |a|
  {
    var s := a + [c] + rest;
    assert s[|a|] == c && forall j :: 0 <= j < |a| ==> s[j] == a[j];
    assert forall j :: 0 <= j < |a| ==> a[j] in a;
  }

  lemma {:induction false} WordLengthOf(a: string, rest: string)
    requires (forall c :: c in a ==> IsWordChar(c)) && (rest == "" || !IsWordChar(rest[0]))
    ensures WordLength(a + rest) == |a|
  {
    if a == "" {
      assert a + rest == rest;
    } else {
      assert (a + rest)[1..] == a[1..] + rest;
      WordLengthOf(a[1..], rest);
    }
  }

  lemma {:induction false} FirstBare(arg: string, rest: string)
    requires Fits(arg, Bare) && (rest == "" || !IsWordChar(rest[0]))
    ensures Exec(arg + rest) == Some(Match(|arg|, arg, "")) && (arg + rest)[|arg|..] == rest
  {
    var s := arg + rest;
    WordLengthOf(arg, rest);
    assert s[0] == arg[0] && IsWordChar(s[0]);
    assert s[..|arg|] == arg;
  }

  lemma FirstQuoted(arg: string, q: char, rest: string)
    requires Fits(arg, Quoted(q))
    ensures var p := [q] + arg + [q];
            Exec(p + rest) == Some(Match(|p|, p, arg)) && (p + rest)[|p|..] == rest
  {
    var p := [q] + arg + [q];
    var s := p + rest;
    assert s[0] == q && s[1..] == arg + [q] + rest;
    IndexOfAfter(arg, q, rest);
    assert s[..|arg| + 2] == p && s[1..|arg| + 1] == arg;
  }

  /** A printed argument that stands first is the first match, and leaves the rest. */
  lemma FirstArgument(arg: string, style: Style, rest: string)
    requires Fits(arg, style) && (rest == "" || rest[0] == ' ')
    ensures Arguments(PrintArgument(arg, style) + rest) == [Echo(arg, style)] + Arguments(rest)
  {
    match style
    case Bare => FirstBare(arg, rest);
    case Quoted(q) => FirstQuoted(arg, q, rest);
  }

  lemma SpaceIsSkipped(s: string)
    ensures Arguments(" " + s) == Arguments(s)
  {
    NothingHere(' ', s);
  }

  /** Printing and parsing: every argument comes back as `Echo` says, whatever the styles. */
  lemma {:induction false} ParsePrinted(args: seq<string>, styles: seq<Style>)
    requires |args| == |styles| && forall i :: 0 <= i < |args| ==> Fits(args[i], styles[i])
    ensures Arguments(Print(args, styles)) == Echoes(args, styles)
    decreases |args|
  {
    if args != [] {
      var rest := if |args| == 1 then "" else " " + Print(args[1..], styles[1..]);
      FirstArgument(args[0], styles[0], rest);
      ParsePrinted(args[1..], styles[1..]);
      if |args| > 1 {
        SpaceIsSkipped(Print(args[1..], styles[1..]));
      }
      EchoesCons(args, styles);
    }
  }

  lemma EchoesCons(args: seq<string>, styles: seq<Style>)
    requires |args| == |styles| && args != []
    ensures Echoes(args, styles) == [Echo(args[0], styles[0])] + Echoes(args[1..], styles[1..])
  {
  }

  /** The parser undoes the printer exactly when no argument is empty. */
  lemma {:induction false} RoundTrip(args: seq<string>, styles: seq<Style>)
    requires |args| == |styles| && forall i :: 0 <= i < |args| ==> Fits(args[i], styles[i])
    ensures Arguments(Print(args, styles)) == args <==> "" !in args
  {
    ParsePrinted(args, styles);
    var e := Echoes(args, styles);
    if "" in args {
      var i :| 0 <= i < |args| && args[i] == "";
      assert e[i] != args[i];
    }
  }

  /** In particular for lists of arguments free of double quotes, all printed in double quotes. */
  lemma {:induction false} DoubleQuotedRoundTrip(args: seq<string>)
    requires forall a :: a in args ==> '"' !in a
    ensures Arguments(Print(args, seq(|args|, _ => Quoted('"')))) == args <==> "" !in args
  {
    RoundTrip(args, seq(|args|, _ => Quoted('"')));
  }

  /** Single quotes do the same, for arguments that may then hold double quotes. */
  lemma SingleQuotedRoundTrip(args: seq<string>)
    requires forall a :: a in args ==> '\'' !in a
    ensures Arguments(Print(args, seq(|args|, _ => Quoted('\'')))) == args <==> "" !in args
  {
    RoundTrip(args, seq(|args|, _ => Quoted('\'')));
  }

  lemma NothingHere(c: char, s: string)
    requires MatchHere([c] + s).None?
    ensures Arguments([c] + s) == Arguments(s)
  {
    var t := [c] + s;
    assert t[1..] == s;
    var m := Exec(s);
    if m.Some? {
      assert t[m.value.end + 1..] == s[m.value.end..];
    }
  }

  /** White space of any kind and length before an argument is skipped. */
  lemma {:induction false} BlankIsSkipped(blank: string, s: string)
    requires Blank(blank)
    ensures Arguments(blank + s) == Arguments(s)
  {
    if blank == "" {
      assert blank + s == s;
    } else {
      assert blank + s == [blank[0]] + (blank[1..] + s);
      NothingHere(blank[0], blank[1..] + s);
      BlankIsSkipped(blank[1..], s);
    }
  }

  /** A quote that is never closed is skipped, and what follows it is split as if it were not there. */
  lemma LoneQuoteIsSkipped(q: char, s: string)
    requires IsQuote(q) && q !in s
    ensures Arguments([q] + s) == Arguments(s)
  {
    assert ([q] + s)[1..] == s;
    NothingHere(q, s);
  }

  // ---------------------------------------------------------------------------------------------
  // Every input
  // ---------------------------------------------------------------------------------------------

  /** A text without its white space and quotes. */
  function Essence(s: string): string {
    if s == "" then "" else Kept(s[0]) + Essence(s[1..])
  }

  function Kept(c: char): string {
    if IsWordChar(c) then [c] else ""
  }

  function EssenceOfAll(args: seq<string>): string {
    if args == [] then "" else Essence(args[0]) + EssenceOfAll(args[1..])
  }

  lemma {:induction false} EssenceConcat(a: string, b: string)
    ensures Essence(a + b) == Essence(a) + Essence(b)
  {
    if a == "" {
      assert a + b == b;
    } else {
      assert (a + b)[1..] == a[1..] + b && (a + b)[0] == a[0];
      EssenceConcat(a[1..], b);
      assert Kept(a[0]) + (Essence(a[1..]) + Essence(b)) == Kept(a[0]) + Essence(a[1..]) + Essence(b);
    }
  }

  lemma EssenceOfQuoted(q: char, s: string)
    requires IsQuote(q)
    ensures Essence([q] + s + [q]) == Essence(s)
  {
    EssenceConcat([q] + s, [q]);
    EssenceConcat([q], s);
    assert Essence([q]) == "";
  }

  ghost predicate KeepsEssence(s: string, m: Option<Match>) {
    match m
    case None => Essence(s) == ""
    case Some(n) => n.end <= |s| && Essence(s[..n.end]) == Essence(Argument(n))
  }

  lemma MatchHereKeepsEssence(s: string)
    requires s != "" && MatchHere(s).Some?
    ensures KeepsEssence(s, MatchHere(s))
  {
    if IsQuote(s[0]) {
      var j := IndexOf(s[1..], s[0]);
      assert s[..j + 2] == [s[0]] + s[1..j + 1] + [s[0]];
      EssenceOfQuoted(s[0], s[1..j + 1]);
    }
  }

  /** A match takes its argument's essence, and nothing but white space and quotes with it, off the front. */
  lemma {:induction false} MatchKeepsEssence(s: string)
    ensures KeepsEssence(s, Exec(s))
  {
    if s != "" {
      if MatchHere(s).Some? {
        MatchHereKeepsEssence(s);
      } else {
        MatchKeepsEssence(s[1..]);
        var m := Exec(s[1..]);
        if m.Some? {
          assert s[..m.value.end + 1] == [s[0]] + s[1..][..m.value.end];
          EssenceConcat([s[0]], s[1..][..m.value.end]);
        }
      }
    }
  }

  /** For every command line, however malformed its quoting: the arguments hold exactly its characters other than
      white space and quotes, in order, none lost and none twice. */
  lemma {:induction false} NothingIsLost(s: string)
    ensures EssenceOfAll(Arguments(s)) == Essence(s)
    decreases |s|
  {
    MatchKeepsEssence(s);
    var m := Exec(s);
    if m.Some? {
      var rest := s[m.value.end..];
      NothingIsLost(rest);
      assert s == s[..m.value.end] + rest;
      EssenceConcat(s[..m.value.end], rest);
      EssenceOfFirst(Argument(m.value), Arguments(rest));
    }
  }

  lemma EssenceOfFirst(arg: string, rest: seq<string>)
    ensures EssenceOfAll([arg] + rest) == Essence(arg) + EssenceOfAll(rest)
  {
    assert ([arg] + rest)[1..] == rest;
  }

  lemma {:induction false} FirstWord(word: string, rest: string)
    requires Fits(word, Bare) && (rest == "" || !IsWordChar(rest[0]))
    ensures Arguments(word + rest) == [word] + Arguments(rest)
  {
    FirstBare(word, rest);
  }

  /** An argument ends where a quote begins, without any space between. */
  lemma {:induction false} QuoteEndsWord(word: string, arg: string, q: char, rest: string)
    requires Fits(word, Bare) && Fits(arg, Quoted(q)) && (rest == "" || rest[0] == ' ')
    ensures var quoted := PrintArgument(arg, Quoted(q)) + rest;
            Arguments(word + quoted) == [word] + ([Echo(arg, Quoted(q))] + Arguments(rest))
  {
    FirstArgument(arg, Quoted(q), rest);
    FirstWord(word, PrintArgument(arg, Quoted(q)) + rest);
  }
}
