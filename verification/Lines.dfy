/**
 Directives alone on their line (internal/vtl/parse.go:327-390): what of the text before and behind them is
 dropped.
 */
module Lines {
  import opened Common
  import opened Ast
  import opened Scan
  import opened Grammar

  predicate AllBlank(s: string) { forall i :: 0 <= i < |s| ==> IsBlank(s[i]) }

  predicate EndsInBlank(s: string) { s != "" && IsBlank(s[|s| - 1]) }

  /** A line of src begins at k, and only blanks follow up to i. */
  predicate IndentFrom(src: string, k: nat, i: nat) {
    k <= i <= |src| && (k == 0 || src[k - 1] == '\n') && AllBlank(src[k..i])
  }

  /** A directive has only blanks before it exactly when they reach back to the start of its line. */
  lemma {:induction false} BlankBeforeExactly(src: string, i: nat)
    requires i <= |src|
    ensures BlankBefore(src, i) <==> exists k :: 0 <= k <= i && IndentFrom(src, k, i)
    decreases i
  {
    if i == 0 || src[i - 1] == '\n' {
      assert IndentFrom(src, i, i);
    } else {
      var j := i - 1;
      BlankBeforeExactly(src, j);
      if BlankBefore(src, j) && IsBlank(src[j]) {
        var k :| 0 <= k <= j && IndentFrom(src, k, j);
        assert src[k..i] == src[k..j] + [src[j]];
        assert IndentFrom(src, k, i);
      }
      if exists k :: 0 <= k <= i && IndentFrom(src, k, i) {
        var k :| 0 <= k <= i && IndentFrom(src, k, i);
        assert k < i;
        assert src[k..i][j - k] == src[j];
        forall n | 0 <= n < j - k ensures IsBlank(src[k..j][n]) { assert src[k..i][n] == src[k..j][n]; }
        assert IndentFrom(src, k, j);
      }
    }
  }

  /** Blanks and carriage returns, and then the end of the line or of the text. */
  predicate EndsLine(s: string, n: nat) {
    && n <= |s|
    && (forall i :: 0 <= i < n ==> IsBlank(s[i]) || s[i] == '\r')
    && (n < |s| ==> s[n] == '\n')
  }

  /** The rest of the line is dropped exactly when it is blank, with its line end, and nothing more. */
  lemma {:induction false} LineRestExactly(s: string, n: nat)
    ensures EndsLine(s, n) ==> LineRest(s) == Some(if n < |s| then s[n + 1..] else "")
    ensures LineRest(s).Some? ==> exists m :: 0 <= m <= |s| && EndsLine(s, m)
    decreases |s|
  {
    if s == "" {
      assert EndsLine(s, 0);
    } else if IsBlank(s[0]) || s[0] == '\r' {
      var t := s[1..];
      LineRestExactly(t, if n > 0 then n - 1 else 0);
      if n > 0 && EndsLine(s, n) {
        forall i | 0 <= i < n - 1 ensures t[i] == s[i + 1] {}
        assert EndsLine(t, n - 1);
      }
      if LineRest(s).Some? {
        var m :| 0 <= m <= |t| && EndsLine(t, m);
        forall i | 0 <= i < m + 1 ensures IsBlank(s[i]) || s[i] == '\r' { if i > 0 { assert t[i - 1] == s[i]; } }
        assert EndsLine(s, m + 1);
      }
    } else {
      if s[0] == '\n' { assert EndsLine(s, 0); }
      if EndsLine(s, n) { assert n == 0; }
    }
  }

  // ---- The text in front

  function Concat(parts: seq<string>): string {
    if parts == [] then "" else Concat(parts[..|parts| - 1]) + parts[|parts| - 1]
  }

  lemma {:induction false} TrimAfter(x: string, s: string)
    ensures TrimBlanks(x + s) == if TrimBlanks(s) == "" then TrimBlanks(x) else x + TrimBlanks(s)
    decreases |s|
  {
    if s == "" {
      assert x + s == x;
    } else {
      assert (x + s)[..|x + s| - 1] == x + s[..|s| - 1];
      if IsBlank(s[|s| - 1]) { TrimAfter(x, s[..|s| - 1]); }
    }
  }

  /** The parts of a text are trimmed as the text they make together. */
  lemma {:induction false} PartsTrimTogether(parts: seq<string>)
    ensures Concat(TrimIndent(parts)) == TrimBlanks(Concat(parts))
  {
    if parts != [] {
      var n := |parts| - 1;
      TrimAfter(Concat(parts[..n]), parts[n]);
      if TrimBlanks(parts[n]) == "" {
        PartsTrimTogether(parts[..n]);
      } else {
        assert parts[n := TrimBlanks(parts[n])][..n] == parts[..n];
      }
    }
  }

  lemma {:induction false} TrimBlank(s: string)
    requires AllBlank(s)
    ensures TrimBlanks(s) == ""
  {
    if s != "" { TrimBlank(s[..|s| - 1]); }
  }

  /**
   Of a text that ends with the indentation of the line, exactly the indentation goes, unless what is in
   front of it ends in a blank: then that goes as well.
   */
  lemma IndentGoesExactly(before: string, indent: string)
    requires AllBlank(indent)
    ensures TrimBlanks(before + indent) == TrimBlanks(before)
    ensures TrimBlanks(before + indent) == before <==> !EndsInBlank(before)
  {
    TrimAfter(before, indent);
    TrimBlank(indent);
    TrimShorter(before);
  }

  lemma {:induction false} TrimShorter(s: string)
    ensures |TrimBlanks(s)| <= |s| && (EndsInBlank(s) ==> |TrimBlanks(s)| < |s|)
  {
    if EndsInBlank(s) { TrimShorter(s[..|s| - 1]); }
  }

  // ---- Blanks of another line

  /**
   A comment to the end of the line takes the line end with it. A directive on the next line then drops the
   blanks in front of the comment: in this template the text "a " loses its blank, though nothing but the
   directive is on the second line.
   */
  lemma BlankBeforeCommentGoes()
    ensures Template("a ##\n#stop") == Ok([Text(["a"]), StopNode])
  {
    var src := "a ##\n#stop";
    assert ParseBlock(src, src, 0) == BlockNodes(src, src, 1, []);
    TextStep(src);
    CommentStep(src, [Text(["a "])]);
    StopStep(src);
    hide BlockNodes, Hash;
  }

  /** A '#' with some text in front of it. */
  lemma HashStep(src: string, s: string, n: nat, done: seq<Node>)
    requires n < |s| && PlainLen(s) == n && s[n] == '#'
    ensures BlockNodes(src, s, 1, done) == AfterHash(src, s[n..], AppendText(done, s[..n]))
  {
    hide Hash, PlainLen;
  }

  /** What a block does with a '#' once the text in front of it is a node. */
  function AfterHash(src: string, t: string, nodes: seq<Node>): Parsed<Block>
    requires t != "" && t[0] == '#'
  {
    var (block, s1) :- Hash(src, t, 1, nodes);
    if block.term.NoTerm? then BlockNodes(src, s1, 1, block.nodes) else Done(block, s1)
  }

  lemma PlainLenIs(s: string, n: nat)
    requires n <= |s| && (n < |s| ==> s[n] == '#')
    requires forall i :: 0 <= i < n ==> s[i] != '$' && s[i] != '#' && s[i] != '\\'
    ensures PlainLen(s) == n
  {
    hide PlainLen;
  }

  lemma TextStep(src: string)
    requires src == "a ##\n#stop"
    ensures BlockNodes(src, src, 1, []) == AfterHash(src, "##\n#stop", [Text(["a "])])
  {
    PlainLenIs(src, 2);
    HashStep(src, src, 2, []);
    assert src[2..] == "##\n#stop" && src[..2] == "a ";
    assert AppendText([], "a ") == [Text(["a "])];
    hide BlockNodes, Hash;
  }

  lemma CommentStep(src: string, nodes: seq<Node>)
    ensures AfterHash(src, "##\n#stop", nodes) == BlockNodes(src, "#stop", 1, nodes)
  {
    var t := "##\n#stop";
    assert t[1..][1..] == t[2..] && t[2..][0] == '\n';
    assert Scan.Index(t[2..], "\n") == Some(0) && Scan.Index(t[1..], "\n") == Some(1) && Scan.Index(t, "\n") == Some(2);
    assert t[3..] == "#stop";
    hide Scan.Index, BlockNodes, Directive, DirectiveName, Gobble;
    assert Hash(src, t, 1, nodes) == Done(Block(nodes, NoTerm, ""), "#stop");
  }

  lemma StopStep(src: string)
    requires src == "a ##\n#stop"
    ensures BlockNodes(src, "#stop", 1, [Text(["a "])]) == Done(Block([Text(["a"]), StopNode], NoTerm, ""), "")
  {
    var nodes := [Text(["a "])];
    PlainLenIs("#stop", 0);
    HashStep(src, "#stop", 0, nodes);
    assert "#stop"[0..] == "#stop" && AppendText(nodes, "#stop"[..0]) == nodes;
    StopRead(src, nodes);
    assert BlockNodes(src, "", 1, [Text(["a"]), StopNode]) == Done(Block([Text(["a"]), StopNode], NoTerm, ""), "");
    hide Hash, BlockNodes;
  }

  lemma StopRead(src: string, nodes: seq<Node>)
    requires src == "a ##\n#stop" && nodes == [Text(["a "])]
    ensures Hash(src, "#stop", 1, nodes) == Done(Block([Text(["a"]), StopNode], NoTerm, ""), "")
  {
    StopName();
    StopNodeAdded(src, nodes);
    var s := "#stop";
    assert s[1] == 's';
    assert IsKnown("stop") && !IsUnsupported("stop");
    hide DirectiveName, Directive, Gobble, Scan.Index, IsKnown, IsUnsupported, AppendText;
  }

  lemma StopNodeAdded(src: string, nodes: seq<Node>)
    requires src == "a ##\n#stop" && nodes == [Text(["a "])]
    ensures Directive(src, "#stop", "stop", "", 1, nodes) == Done(Block([Text(["a"]), StopNode], NoTerm, ""), "")
  {
    StopGobbles(src, nodes);
    assert [Text(["a"])] + [StopNode] == [Text(["a"]), StopNode];
    hide Gobble, Set, If, Foreach, Return;
  }

  lemma StopGobbles(src: string, nodes: seq<Node>)
    requires src == "a ##\n#stop" && nodes == [Text(["a "])]
    ensures Gobble(src, "#stop", nodes, "") == ([Text(["a"])], "")
  {
    Trimmed();
    var start := "#stop";
    assert |start| == 5 && |src| == 10 && src[4] == '\n';
    assert BlankBefore(src, 5);
    assert Alone(src, start, "");
    hide BlankBefore, TrimLast;
  }

  lemma StopName()
    ensures DirectiveName("#stop") == ("stop", false, "")
  {
    assert IdentLen("stop") == 4 by { hide IdentLen; }
    assert "#stop"[1..] == "stop" && "stop"[..4] == "stop" && "stop"[4..] == "";
    hide IdentLen;
  }

  lemma Trimmed()
    ensures TrimLast([Text(["a "])]) == [Text(["a"])]
  {
    assert "a "[..1] == "a";
    assert TrimBlanks("a ") == "a";
    assert TrimIndent(["a "]) == ["a"];
  }
}
