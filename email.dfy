/**
 * The link-isolation rewrite applied before a message is published
 * (email.go sendEmailViaSNS and its copy helpers/email.go SendEmailViaSNS):
 * the message is split into lines, every line containing "http" gets one
 * extra newline, and the lines are joined again.
 */
module Email {
  import opened Text

  /** The text whose presence marks a line as a link line. */
  const Link := "http"

  /** One line after the rewrite. */
  function IsolateLine(line: string): string
  {
    if Contains(line, Link) then line + "\n" else line
  }

  /** Every line rewritten, one for one. */
  function Isolated(lines: seq<string>): (out: seq<string>)
    ensures |out| == |lines|
    ensures forall i :: 0 <= i < |lines| ==>
              out[i] == (if Contains(lines[i], Link) then lines[i] + "\n" else lines[i])
    decreases |lines|
  {
    if lines == [] then [] else [IsolateLine(lines[0])] + Isolated(lines[1..])
  }

  /** The message as published: split on newlines, rewritten, joined with newlines. */
  function LinkIsolated(message: string): string
  {
    Join(Isolated(Split(message, '\n')), "\n")
  }

  /** The rewrite loop: the lines are copied into an array and the link lines overwritten in place. */
  method IsolateLinks(message: string) returns (finalMessage: string)
    ensures finalMessage == LinkIsolated(message)
  {
    var parts := Split(message, '\n');
    var lines := new string[|parts|](i requires 0 <= i < |parts| => parts[i]);
    for i := 0 to lines.Length
      invariant forall k :: 0 <= k < i ==> lines[k] == IsolateLine(parts[k])
      invariant forall k :: i <= k < lines.Length ==> lines[k] == parts[k]
    {
      var line := lines[i];
      if Contains(line, Link) {
        lines[i] := line + "\n";
      }
    }
    assert lines[..] == Isolated(parts);
    finalMessage := Join(lines[..], "\n");
  }

  /** The number of lines that contain "http". */
  function LinkCount(lines: seq<string>): (n: nat)
    ensures n <= |lines|
    decreases |lines|
  {
    if lines == [] then 0 else (if Contains(lines[0], Link) then 1 else 0) + LinkCount(lines[1..])
  }

  /** Rewriting adds one character per link line to the joined text. */
  lemma {:induction false} IsolatedJoinLength(lines: seq<string>)
    ensures |Join(Isolated(lines), "\n")| == |Join(lines, "\n")| + LinkCount(lines)
    decreases |lines|
  {
    if lines != [] {
      var rest := lines[1..];
      IsolatedJoinLength(rest);
      assert lines == [lines[0]] + rest;
      JoinCons(lines[0], rest, "\n");
      JoinCons(IsolateLine(lines[0]), Isolated(rest), "\n");
    }
  }

  /** The published message is longer than the original by the number of link lines. */
  lemma LinkIsolatedLength(message: string)
    ensures |LinkIsolated(message)| == |message| + LinkCount(Split(message, '\n'))
  {
    IsolatedJoinLength(Split(message, '\n'));
    JoinSplit(message, '\n');
  }

  /** Without link lines the rewrite changes nothing. */
  lemma {:induction false} IsolatedWithoutLinks(lines: seq<string>)
    requires forall i :: 0 <= i < |lines| ==> !Contains(lines[i], Link)
    ensures Isolated(lines) == lines
    decreases |lines|
  {
    if lines != [] {
      IsolatedWithoutLinks(lines[1..]);
    }
  }

  /** A message none of whose lines contains "http" is published unchanged. */
  lemma LinkIsolatedIdentity(message: string)
    requires forall i :: 0 <= i < |Split(message, '\n')| ==> !Contains(Split(message, '\n')[i], Link)
    ensures LinkIsolated(message) == message
  {
    IsolatedWithoutLinks(Split(message, '\n'));
    JoinSplit(message, '\n');
  }

  /** out holds line at start, then two newlines: the line is followed by a blank line. */
  predicate LineThenBlank(out: string, start: int, line: string)
  {
    && 0 <= start && start + |line| + 2 <= |out|
    && out[start..start + |line|] == line
    && out[start + |line|..start + |line| + 2] == "\n\n"
  }

  /** A joined part that ends in a newline and is not the last is followed by a second newline. */
  lemma JoinedLineEndsBlank(parts: seq<string>, i: nat, x: string)
    requires i + 1 < |parts| && parts[i] == x + "\n"
    ensures LineThenBlank(Join(parts, "\n"), LineStart(parts, i), x)
  {
    var out := Join(parts, "\n");
    var start := LineStart(parts, i);
    var end := start + |x|;
    JoinLineAt(parts, '\n', i);
    AppendedAt(out, start, x, '\n');
    assert out[end + 1] == '\n';
    assert out[end..end + 2] == [out[end], out[end + 1]];
  }

  /** A slice equal to x followed by c holds x, then c. */
  lemma AppendedAt(out: string, start: nat, x: string, c: char)
    requires start + |x| + 1 <= |out| && out[start..start + |x| + 1] == x + [c]
    ensures out[start..start + |x|] == x && out[start + |x|] == c
  {
    assert out[start..start + |x|] == out[start..start + |x| + 1][..|x|];
    assert out[start + |x|] == out[start..start + |x| + 1][|x|];
  }

  /** A link line of the message that is not its last line is followed by a blank line once published. */
  lemma LinkLineFollowedByBlank(message: string, i: nat)
    requires i + 1 < |Split(message, '\n')| && Contains(Split(message, '\n')[i], Link)
    ensures var lines := Split(message, '\n');
            LineThenBlank(LinkIsolated(message), LineStart(Isolated(lines), i), lines[i])
  {
    var lines := Split(message, '\n');
    var iso := Isolated(lines);
    assert iso[i] == lines[i] + "\n";
    JoinedLineEndsBlank(iso, i, lines[i]);
  }

  /** LinkCount adds up over a concatenation of line lists. */
  lemma {:induction false} LinkCountConcat(a: seq<string>, b: seq<string>)
    ensures LinkCount(a + b) == LinkCount(a) + LinkCount(b)
    decreases |a|
  {
    if a == [] {
      assert a + b == b;
    } else {
      assert (a + b)[0] == a[0];
      assert (a + b)[1..] == a[1..] + b;
      LinkCountConcat(a[1..], b);
    }
  }

  /** A message with a whole line containing "http" strictly grows when published. */
  lemma LinkLineGrows(pre: string, line: string, post: string)
    requires '\n' !in line && Contains(line, Link)
    ensures var message := pre + "\n" + line + "\n" + post;
            |LinkIsolated(message)| > |message|
  {
    var message := pre + "\n" + line + "\n" + post;
    assert message == pre + ['\n'] + (line + ['\n'] + post);
    SplitAtSep(pre, line + ['\n'] + post, '\n');
    SplitAtSep(line, post, '\n');
    SplitWithoutSep(line, '\n');
    LinkCountConcat(Split(pre, '\n'), [line] + Split(post, '\n'));
    LinkCountConcat([line], Split(post, '\n'));
    assert LinkCount([line]) == 1 by {
      assert [line][1..] == [];
    }
    LinkIsolatedLength(message);
  }
}
