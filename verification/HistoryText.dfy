/**
 The words in which history entries describe instructions, and which instructions they tell
 apart.
 */
module HistoryText {
  import opened Optional
  import opened Strings
  import opened LayerCache

  // ------------------------------------------------------------------------------------ sorted strings

  ghost predicate Ascends(s: seq<string>) {
    forall i, j :: 0 <= i < j < |s| ==> StringLess(s[i], s[j])
  }

  function Insert(x: string, s: seq<string>): seq<string> {
    if s == [] || StringLess(s[|s| - 1], x) then s + [x] else Insert(x, s[..|s| - 1]) + [s[|s| - 1]]
  }

  lemma {:induction false} InsertHolds(x: string, s: seq<string>, y: string)
    ensures y in Insert(x, s) <==> y == x || y in s
  {
    if s != [] && !StringLess(s[|s| - 1], x) {
      InsertHolds(x, s[..|s| - 1], y);
      assert s == s[..|s| - 1] + [s[|s| - 1]];
    }
  }

  lemma {:induction false} InsertAscends(x: string, s: seq<string>)
    requires Ascends(s) && x !in s
    ensures Ascends(Insert(x, s))
  {
    if s != [] {
      var last, before := s[|s| - 1], s[..|s| - 1];
      if StringLess(last, x) {
        forall i | 0 <= i < |s|
          ensures StringLess(s[i], x)
        {
          if i < |s| - 1 {
            StringTransitive(s[i], last, x);
          }
        }
      } else {
        StringTotal(last, x);
        InsertAscends(x, before);
        forall i | 0 <= i < |Insert(x, before)|
          ensures StringLess(Insert(x, before)[i], last)
        {
          InsertHolds(x, before, Insert(x, before)[i]);
        }
      }
    }
  }

  /** sort.Strings, of strings that are all different. */
  ghost function Sorted(s: set<string>): seq<string> {
    if s == {} then [] else
      var x :| x in s;
      Insert(x, Sorted(s - {x}))
  }

  lemma {:induction false} SortedIs(s: set<string>)
    ensures Ascends(Sorted(s)) && forall y :: y in Sorted(s) <==> y in s
  {
    if s != {} {
      var x :| x in s && Sorted(s) == Insert(x, Sorted(s - {x}));
      SortedIs(s - {x});
      InsertAscends(x, Sorted(s - {x}));
      forall y
        ensures y in Sorted(s) <==> y in s
      {
        InsertHolds(x, Sorted(s - {x}), y);
      }
    }
  }

  lemma AllButLast(s: seq<string>, x: string)
    requires Ascends(s) && s != []
    ensures x in s[..|s| - 1] <==> x in s && x != s[|s| - 1]
  {
    var m := |s| - 1;
    assert s == s[..m] + [s[m]];
    StringIrreflexive(s[m]);
  }

  lemma FirstIsHeld(s: seq<string>)
    ensures s == [] || s[0] in s
  {
  }

  /** There is one way only to sort them. */
  lemma {:induction false} SortedOnce(s: seq<string>, t: seq<string>)
    requires Ascends(s) && Ascends(t) && forall x :: x in s <==> x in t
    ensures s == t
    decreases |s|
  {
    if s == [] {
      FirstIsHeld(t);
    } else {
      assert s[0] in t;
      var m, n := |s| - 1, |t| - 1;
      assert s[m] == t[n] by {
        assert s[m] in s && t[n] in t;
        var j :| 0 <= j < |t| && t[j] == s[m];
        var i :| 0 <= i < |s| && s[i] == t[n];
        if i < m && j < n {
          StringTransitive(s[i], s[m], t[n]);
          StringIrreflexive(t[n]);
        }
      }
      forall x
        ensures x in s[..m] <==> x in t[..n]
      {
        AllButLast(s, x);
        AllButLast(t, x);
      }
      SortedOnce(s[..m], t[..n]);
      assert s == s[..m] + [s[m]] && t == t[..n] + [t[n]];
    }
  }

  // ------------------------------------------------------------------------------------------ the words

  /** strings.Join(s, " ") */
  function Joined(s: seq<string>): string {
    if s == [] then "" else if |s| == 1 then s[0] else Joined(s[..|s| - 1]) + " " + s[|s| - 1]
  }

  function Line(key: string, value: string): string {
    key + "=" + value
  }

  function Lines(args: map<string, string>): set<string> {
    set k | k in args :: Line(k, args[k])
  }

  const SHELL: string := "/bin/sh -c "
  const NOP: string := "/bin/sh -c #(nop) "

  /** The arguments are counted by splitting at the spaces again. */
  function RunText(args: string, command: string): string {
    if args == "" then SHELL + command
    else "|" + (Decimal(Count(args, ' ') + 1) + " " + (args + " " + (SHELL + command)))
  }

  function ContentText(keyword: string, summary: string, destination: string): string {
    NOP + (keyword + " " + (summary + " " + ("in " + (destination + " "))))
  }

  /** getCreatedBy, in words. */
  ghost function Words(d: Description): string {
    match d
    case ArgOf(keys) => NOP + "ARG " + Joined(Sorted(keys))
    case RunOf(args, text) => RunText(Joined(Sorted(Lines(args))), text)
    case ContentOf(keyword, summary, destination) => ContentText(keyword, summary, destination)
    case Nop(text) => NOP + text
  }

  // ------------------------------------------------------------------------------------- ADD and COPY

  predicate IsPlainWord(s: string) {
    ' ' !in s
  }

  lemma DropPrefix(p: string, a: string, b: string)
    requires p + a == p + b
    ensures a == b
  {
    assert (p + a)[|p|..] == a && (p + b)[|p|..] == b;
  }

  /** A word without spaces, and what comes after it. */
  lemma WordIsTold(a: string, x: string, b: string, y: string)
    requires IsPlainWord(a) && IsPlainWord(b) && a + " " + x == b + " " + y
    ensures a == b && x == y
  {
    CountOfNone(a, ' ');
    CountOfNone(b, ' ');
    SplitsAlike(a, x, b, y, ' ');
  }

  /**
   What is said of ADD and COPY tells keyword, content and destination: keywords and summaries
   have no spaces in them.
   */
  lemma ContentWordsExactlyWhen(d: Description, d': Description)
    requires d.ContentOf? && IsPlainWord(d.keyword) && IsPlainWord(d.summary)
    requires d'.ContentOf? && IsPlainWord(d'.keyword) && IsPlainWord(d'.summary)
    ensures Words(d) == Words(d') <==> d == d'
  {
    if Words(d) == Words(d') {
      var x, x' := "in " + (d.destination + " "), "in " + (d'.destination + " ");
      DropPrefix(NOP, d.keyword + " " + (d.summary + " " + x), d'.keyword + " " + (d'.summary + " " + x'));
      WordIsTold(d.keyword, d.summary + " " + x, d'.keyword, d'.summary + " " + x');
      WordIsTold(d.summary, x, d'.summary, x');
      DropPrefix("in ", d.destination + " ", d'.destination + " ");
      assert (d.destination + " ")[..|d.destination|] == d.destination;
      assert (d'.destination + " ")[..|d'.destination|] == d'.destination;
    }
  }

  // ---------------------------------------------------------------------------------------------- RUN

  lemma RunTextStarts(args: string, command: string)
    ensures RunText(args, command)[0] == if args == "" then '/' else '|'
  {
  }

  /** The words of two RUN instructions are the same exactly when their commands and argument texts are. */
  lemma RunTextExactlyWhen(args: string, command: string, args': string, command': string)
    ensures RunText(args, command) == RunText(args', command') <==> args == args' && command == command'
  {
    if RunText(args, command) == RunText(args', command') {
      RunTextStarts(args, command);
      RunTextStarts(args', command');
      if args == "" {
        DropPrefix(SHELL, command, command');
      } else {
        var m, n := Count(args, ' ') + 1, Count(args', ' ') + 1;
        var x, x' := args + " " + (SHELL + command), args' + " " + (SHELL + command');
        DropPrefix("|", Decimal(m) + " " + x, Decimal(n) + " " + x');
        DecimalHasNo(m, ' ');
        DecimalHasNo(n, ' ');
        SplitsAlike(Decimal(m), x, Decimal(n), x', ' ');
        DecimalIsInjective(m, n);
        SplitsAlike(args, SHELL + command, args', SHELL + command', ' ');
        DropPrefix(SHELL, command, command');
      }
    }
  }

  /** No argument has a space in its name or its value, nor an equals sign in its name. */
  ghost predicate ArePlain(args: map<string, string>) {
    forall k :: k in args ==> IsPlainWord(k) && '=' !in k && IsPlainWord(args[k])
  }

  lemma {:induction false} SpacesOfJoined(s: seq<string>)
    requires s != [] && forall x :: x in s ==> IsPlainWord(x)
    ensures Count(Joined(s), ' ') == |s| - 1
  {
    var last, before := s[|s| - 1], s[..|s| - 1];
    assert last in s;
    CountOfNone(last, ' ');
    if |s| > 1 {
      SpacesOfJoined(before);
      CountOfConcatenation(Joined(before) + " ", last, ' ');
      CountOfConcatenation(Joined(before), " ", ' ');
      assert Count(" ", ' ') == 1;
    }
  }

  lemma {:induction false} JoinedIsTold(s: seq<string>, t: seq<string>)
    requires s != [] && t != [] && (forall x :: x in s ==> IsPlainWord(x)) && (forall x :: x in t ==> IsPlainWord(x))
    requires Joined(s) == Joined(t)
    ensures s == t
    decreases |s|
  {
    SpacesOfJoined(s);
    SpacesOfJoined(t);
    var m, n := |s| - 1, |t| - 1;
    if |s| > 1 {
      SpacesOfJoined(s[..m]);
      SpacesOfJoined(t[..n]);
      SplitsAlike(Joined(s[..m]), s[m], Joined(t[..n]), t[n], ' ');
      JoinedIsTold(s[..m], t[..n]);
      assert s == s[..m] + [s[m]] && t == t[..n] + [t[n]];
    }
  }

  lemma LineIsTold(k: string, v: string, k': string, v': string)
    requires '=' !in k && '=' !in k' && Line(k, v) == Line(k', v')
    ensures k == k' && v == v'
  {
    CountOfNone(k, '=');
    CountOfNone(k', '=');
    SplitsAlike(k, v, k', v', '=');
  }

  lemma LinesAreTold(args: map<string, string>, args': map<string, string>)
    requires ArePlain(args) && ArePlain(args') && Lines(args) == Lines(args')
    ensures args == args'
  {
    forall k
      ensures k in args ==> k in args' && args'[k] == args[k]
      ensures k in args' ==> k in args
    {
      if k in args {
        assert Line(k, args[k]) in Lines(args');
        var k' :| k' in args' && Line(k', args'[k']) == Line(k, args[k]);
        LineIsTold(k, args[k], k', args'[k']);
      }
      if k in args' {
        assert Line(k, args'[k]) in Lines(args);
        var k' :| k' in args && Line(k', args[k']) == Line(k, args'[k]);
        LineIsTold(k, args'[k], k', args[k']);
      }
    }
    assert args.Keys == args'.Keys;
  }

  lemma PlainLines(args: map<string, string>)
    requires ArePlain(args)
    ensures forall x :: x in Sorted(Lines(args)) ==> IsPlainWord(x) && x != ""
    ensures Joined(Sorted(Lines(args))) == "" <==> args == map[]
  {
    SortedIs(Lines(args));
    var s := Sorted(Lines(args));
    hide Sorted;
    assert s == [] || s[|s| - 1] in s;
    if args != map[] {
      var k :| k in args;
      assert Line(k, args[k]) in s;
    }
  }

  lemma ArgTextIsTold(args: map<string, string>, args': map<string, string>)
    requires ArePlain(args) && ArePlain(args') && Joined(Sorted(Lines(args))) == Joined(Sorted(Lines(args')))
    ensures args == args'
  {
    PlainLines(args);
    PlainLines(args');
    if args != map[] {
      var s, t := Sorted(Lines(args)), Sorted(Lines(args'));
      SortedIs(Lines(args));
      SortedIs(Lines(args'));
      hide Sorted;
      assert s != [] && t != [];
      JoinedIsTold(s, t);
      assert forall x :: x in Lines(args) <==> x in s;
      assert Lines(args) == Lines(args');
      LinesAreTold(args, args');
    }
  }

  /**
   What is said of RUN tells the command, and the arguments if there are no spaces in them. In
   any case it is the same exactly when the command and the arguments' joined text are.
   */
  lemma RunWordsExactlyWhen(d: Description, d': Description)
    requires d.RunOf? && d'.RunOf?
    ensures Words(d) == Words(d') <==>
      d.text == d'.text && Joined(Sorted(Lines(d.args))) == Joined(Sorted(Lines(d'.args)))
    ensures ArePlain(d.args) && ArePlain(d'.args) ==> (Words(d) == Words(d') <==> d == d')
  {
    RunTextExactlyWhen(Joined(Sorted(Lines(d.args))), d.text, Joined(Sorted(Lines(d'.args))), d'.text);
    hide RunText;
    if ArePlain(d.args) && ArePlain(d'.args) && Words(d) == Words(d') {
      ArgTextIsTold(d.args, d'.args);
    }
  }

  lemma SortedOf(s: set<string>, t: seq<string>)
    requires Ascends(t) && forall x :: x in s <==> x in t
    ensures Sorted(s) == t
  {
    SortedIs(s);
    SortedOnce(Sorted(s), t);
  }

  /** An argument with a space in its value is not told from two arguments. */
  lemma ArgumentsNotToldApart(command: string)
    ensures RunOf(map["A" := "1 B=2"], command) != RunOf(map["A" := "1", "B" := "2"], command)
    ensures Words(RunOf(map["A" := "1 B=2"], command)) == Words(RunOf(map["A" := "1", "B" := "2"], command))
  {
    var one, two := map["A" := "1 B=2"], map["A" := "1", "B" := "2"];
    assert "A" in one && "A" in two && "B" in two && "B" !in one;
    var s, t := ["A=1 B=2"], ["A=1", "B=2"];
    assert Lines(one) == {"A=1 B=2"} by {
      assert Line("A", one["A"]) == "A=1 B=2";
    }
    assert Lines(two) == {"A=1", "B=2"} by {
      assert Line("A", two["A"]) == "A=1" && Line("B", two["B"]) == "B=2";
    }
    assert StringLess("A=1", "B=2");
    SortedOf(Lines(one), s);
    SortedOf(Lines(two), t);
    assert t[..1] == ["A=1"] && Joined(t) == "A=1" + " " + "B=2" == "A=1 B=2" == Joined(s);
  }

  // -------------------------------------------------------------------------------- RUN and ADD or COPY

  /** A RUN is described like an addition of content exactly when it has no arguments and reads like that. */
  lemma RunOrContentExactlyWhen(d: Description, d': Description)
    requires d.RunOf? && d'.ContentOf?
    ensures Words(d) == Words(d') <==>
      && Joined(Sorted(Lines(d.args))) == ""
      && SHELL + d.text == ContentText(d'.keyword, d'.summary, d'.destination)
  {
    RunTextStarts(Joined(Sorted(Lines(d.args))), d.text);
    assert ContentText(d'.keyword, d'.summary, d'.destination)[0] == NOP[0] == '/';
    hide ContentText;
  }

  /**
   So an image that was committed for a RUN with one argument is taken for the same RUN with
   two: the entries say the same, though the arguments have other values.
   */
  lemma RunHitsOtherArguments(e: Engine, i: Instruction, rest: nat)
    requires i.command.Run? && "A" !in e.proxies && "B" !in e.proxies && forall d :: e.render(d) == Words(d)
    ensures var c := Config(map["A" := "1 B=2"], {"A", "B"}, map[], rest);
            var c' := Config(map["A" := "1", "B" := "2"], {"A", "B"}, map[], rest);
            Says(e, c, {}, i) == Says(e, c', {}, i) && ArgValue(e, c, {}, "A") != ArgValue(e, c', {}, "A")
  {
    var c := Config(map["A" := "1 B=2"], {"A", "B"}, map[], rest);
    var c' := Config(map["A" := "1", "B" := "2"], {"A", "B"}, map[], rest);
    ArgumentsNotToldApart(i.text);
    hide Words;
    assert ResolvedArgs(e, c, {}) == c.args && ResolvedArgs(e, c', {}) == c'.args;
    assert "A" in c.args && "A" in c'.args;
  }

  // What the words look like.

  lemma ContentLooksLike()
    ensures Words(ContentOf("COPY", "file:0a", "/d")) == "/bin/sh -c #(nop) COPY file:0a in /d "
  {
    assert "in " + ("/d" + " ") == "in /d ";
    assert "file:0a" + " " + "in /d " == "file:0a in /d ";
    assert "COPY" + " " + "file:0a in /d " == "COPY file:0a in /d ";
  }

  lemma RunLooksLike()
    ensures Words(RunOf(map[], "make")) == "/bin/sh -c make"
    ensures Words(RunOf(map["A" := "1"], "make")) == "|1 A=1 /bin/sh -c make"
  {
    hide Sorted;
    NoLine(map[]);
    OneLine(map["A" := "1"]);
    assert SHELL + "make" == "/bin/sh -c make";
    OneArgument();
    hide *;
    WordsOfRun(map[], "make");
    WordsOfRun(map["A" := "1"], "make");
  }

  lemma WordsOfRun(args: map<string, string>, command: string)
    ensures Words(RunOf(args, command)) == RunText(Joined(Sorted(Lines(args))), command)
    ensures RunText("", command) == SHELL + command
  {
    hide Sorted;
  }

  lemma OneArgument()
    ensures RunText("A=1", "make") == "|1 A=1 /bin/sh -c make"
  {
    CountOfNone("A=1", ' ');
    TextOfOne();
    hide Count;
    hide Decimal;
  }

  lemma TextOfOne()
    ensures Decimal(1) == "1"
    ensures "|" + ("1" + " " + ("A=1" + " " + (SHELL + "make"))) == "|1 A=1 /bin/sh -c make"
  {
  }

  lemma NoLine(args: map<string, string>)
    requires args == map[]
    ensures Joined(Sorted(Lines(args))) == ""
  {
    SortedOf(Lines(args), []);
  }

  lemma OneLine(args: map<string, string>)
    requires args == map["A" := "1"]
    ensures Joined(Sorted(Lines(args))) == "A=1"
  {
    assert Lines(args) == {"A=1"} by {
      assert "A" in args && Line("A", args["A"]) == "A=1";
    }
    SortedOf(Lines(args), ["A=1"]);
  }
}
