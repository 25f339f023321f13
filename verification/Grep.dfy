/** The line buffer of user/grep.c: input comes in pieces of any size. */
module Grep {
  import opened Regex

  const SIZE: nat := 1024

  // --- what grep prints ---

  function NewLine(s: string): (i: nat)
    ensures i <= |s| && (i < |s| ==> s[i] == '\n') && forall j :: 0 <= j < i ==> s[j] != '\n'
  {
    if s == "" then 0 else if s[0] == '\n' then 0 else 1 + NewLine(s[1..])
  }

  // A line that does not fit the buffer with its newline and a NUL, or that contains a NUL.
  predicate Bad(line: string) { |line| >= SIZE - 1 || '\0' in line }

  // The matching lines, up to the first bad one or the end of the last complete one.
  ghost function Output(re: string, s: string): string
    decreases |s|
  {
    var i := NewLine(s);
    if i == |s| || Bad(s[..i]) then ""
    else (if Matches(re, s[..i]) then s[..i] + "\n" else "") + Output(re, s[i + 1..])
  }

  // No line can be taken from the pending input: there is no newline, or a NUL before it.
  predicate Stuck(s: string) { forall i :: 0 <= i < |s| && s[i] == '\n' ==> '\0' in s[..i] }

  lemma NewLineAt(s: string, i: nat)
    requires i < |s| && s[i] == '\n' && forall j :: 0 <= j < i ==> s[j] != '\n'
    ensures NewLine(s) == i
  {
  }

  // At the end of the input, or with a full buffer, nothing more is printed.
  lemma StuckEnds(re: string, s: string, rest: string)
    requires Stuck(s) && (rest == "" || |s| >= SIZE - 1)
    ensures Output(re, s + rest) == ""
  {
    var i := NewLine(s + rest);
    if i < |s| {
      assert '\0' in s[..i];
      assert (s + rest)[..i] == s[..i];
    } else if i < |s + rest| {
      assert |(s + rest)[..i]| >= SIZE - 1;
    }
  }

  // Neither a newline nor a NUL.
  predicate Plain(s: string) { forall j :: 0 <= j < |s| ==> s[j] != '\n' && s[j] != '\0' }

  // The C string at p.
  function Text(s: string, p: nat): string
    requires p <= |s|
    decreases |s| - p
  {
    if p == |s| || s[p] == '\0' then "" else [s[p]] + Text(s, p + 1)
  }

  lemma {:induction false} TextAt(s: string, p: nat, q: nat)
    requires p <= q < |s| && s[q] == '\0' && '\0' !in s[p..q]
    ensures Text(s, p) == s[p..q]
    decreases q - p
  {
    if p < q {
      assert s[p..q] == [s[p]] + s[p + 1..q];
      TextAt(s, p + 1, q);
    }
  }

  // The next complete line of the buffer.
  lemma OutputLine(re: string, line: string, tail: string, rest: string)
    requires |line| < SIZE - 1 && Plain(line)
    ensures Output(re, line + "\n" + tail + rest)
            == (if Matches(re, line) then line + "\n" else "") + Output(re, tail + rest)
  {
    var s := line + "\n" + tail + rest;
    NewLineAt(s, |line|);
    assert s[..|line|] == line;
    assert s[|line| + 1..] == tail + rest;
  }

  class Searcher {
    const buf: array<char>
    var input: string      // what is still to be read
    var out: string        // what was printed

    constructor (input: string)
      ensures this.input == input && out == "" && buf.Length == SIZE && fresh(buf)
    {
      this.buf := new char[SIZE];
      this.input, this.out := input, "";
    }

    // Reads between 1 and max bytes to buf[m..], or none if max is 0 or the input is used up.
    method Read(m: nat, max: nat) returns (n: nat)
      requires m + max <= buf.Length
      modifies this`input, buf
      ensures n <= max && n <= |old(input)| && (n == 0 <==> max == 0 || old(input) == "")
      ensures buf[..m] == old(buf[..m]) && buf[m..m + n] == old(input)[..n] && input == old(input)[n..]
    {
      n := 0;
      if max > 0 && input != "" {
        n :| 1 <= n <= max && n <= |input|;
      }
      var j := 0;
      while j < n
        invariant j <= n && input == old(input)
        invariant buf[..m] == old(buf[..m]) && buf[m..m + j] == input[..j]
      {
        buf[m + j] := input[j];
        j := j + 1;
      }
      input := input[n..];
    }

    // strchr(buf + p, c) for a string that ends at the first NUL, at m or before.
    method StrChr(p: nat, m: nat) returns (q: int)
      requires p <= m < buf.Length && buf[m] == '\0'
      ensures q == -1 || p <= q < m
      ensures q != -1 ==> buf[q] == '\n' && Plain(buf[p..q])
      ensures q == -1 ==> Stuck(buf[p..m])
    {
      q := p;
      while buf[q] != '\0'
        invariant p <= q <= m && forall j :: p <= j < q ==> buf[j] != '\n' && buf[j] != '\0'
        decreases m - q
      {
        if buf[q] == '\n' {
          return;
        }
        q := q + 1;
      }
      forall i | 0 <= i < |buf[p..m]| && buf[p..m][i] == '\n' ensures '\0' in buf[p..m][..i] {
        assert buf[p..m][..i][q - p] == '\0';
      }
      q := -1;
    }

    // memmove(buf, buf + p, k)
    method Shift(p: nat, k: nat)
      requires p + k <= buf.Length
      modifies buf
      ensures buf[..k] == old(buf[p..p + k])
    {
      for j := 0 to k
        invariant buf[..j] == old(buf[p..p + j])
        invariant forall x :: j <= x < buf.Length ==> buf[x] == old(buf[x])
      {
        buf[j] := buf[p + j];
      }
    }

    // Prints the complete line buf[p..q] if it matches.
    method PrintLine(re: string, p: nat, q: nat, m: nat)
      requires p <= q < m < buf.Length && m <= SIZE - 1 && buf[q] == '\n' && Plain(buf[p..q])
      modifies this`out, buf
      ensures buf[m] == old(buf[m]) && buf[q + 1..m] == old(buf[q + 1..m])
      ensures out == old(out) + if Matches(re, old(buf[p..q])) then old(buf[p..q]) + "\n" else ""
    {
      hide Matches, Text;
      buf[q] := '\0';
      assert buf[p..q] == old(buf[p..q]) && '\0' !in buf[p..q];
      TextAt(buf[..], p, q);
      var r := Match(re, Text(buf[..], p));
      if r {
        buf[q] := '\n';
        assert buf[p..q + 1] == buf[p..q] + "\n";
        out := out + buf[p..q + 1];
      }
    }

    // The inner loop: prints the matching ones of the complete lines in buf[..m] and returns
    // where the incomplete one begins.
    method TakeLines(re: string, m: nat) returns (p: nat)
      requires m < buf.Length == SIZE && buf[m] == '\0'
      modifies this`out, buf
      ensures p <= m && Stuck(buf[p..m])
      ensures old(out) + Output(re, old(buf[..m]) + input) == out + Output(re, buf[p..m] + input)
    {
      hide Output, Stuck, Plain, Matches;
      p := 0;
      assert buf[..m] == buf[0..m];
      var q := StrChr(p, m);
      while q != -1
        invariant p <= m && buf[m] == '\0' && (q == -1 || p <= q < m)
        invariant q != -1 ==> buf[q] == '\n' && Plain(buf[p..q])
        invariant q == -1 ==> Stuck(buf[p..m])
        invariant old(out) + Output(re, old(buf[..m]) + input) == out + Output(re, buf[p..m] + input)
        decreases m - p, q
      {
        OutputLine(re, buf[p..q], buf[q + 1..m], input);
        Cut(buf[..], p, q, m);
        PrintLine(re, p, q, m);
        p := q + 1;
        q := StrChr(p, m);
      }
    }

    lemma Cut(s: string, p: nat, q: nat, m: nat)
      requires p <= q < m <= |s| && s[q] == '\n'
      ensures s[p..m] == s[p..q] + "\n" + s[q + 1..m]
    {
    }

    lemma StartsEmpty(re: string)
      requires buf.Length == SIZE
      ensures Stuck(buf[..0]) && buf[..0] + input == input
    {
    }

    // Prints what Output says of the whole input, whatever sizes the reads return.
    method Grep(re: string)
      requires buf.Length == SIZE
      modifies this`input, this`out, buf
      ensures out == old(out) + Output(re, old(input))
    {
      hide Output, Stuck;
      var m: nat := 0;
      StartsEmpty(re);
      while true
        invariant m <= SIZE - 1 && Stuck(buf[..m])
        invariant old(out) + Output(re, old(input)) == out + Output(re, buf[..m] + input)
        decreases |input|
      {
        ghost var pending, all := buf[..m], input;
        var n := Read(m, SIZE - m - 1);
        if n == 0 {
          assert buf[..m] == pending;
          StuckEnds(re, pending, all);
          break;
        }
        assert buf[..m + n] + input == pending + all by {
          assert buf[..m + n] == buf[..m] + buf[m..m + n];
          assert all == all[..n] + all[n..];
        }
        m := m + n;
        ghost var filled := buf[..m];
        buf[m] := '\0';
        assert buf[..m] == filled;
        var p := TakeLines(re, m);
        if m > 0 {
          m := m - p;
          Shift(p, m);
        }
      }
    }
  }

  // The complete lines of a text.
  ghost function Lines(s: string): seq<string>
    decreases |s|
  {
    var i := NewLine(s);
    if i == |s| then [] else [s[..i]] + Lines(s[i + 1..])
  }

  ghost function Matching(re: string, lines: seq<string>): string {
    if lines == [] then ""
    else (if Matches(re, lines[0]) then lines[0] + "\n" else "") + Matching(re, lines[1..])
  }

  // Every matching line comes before the first bad one.
  ghost predicate Reached(re: string, lines: seq<string>) {
    forall j, k :: 0 <= j <= k < |lines| && Matches(re, lines[k]) ==> !Bad(lines[j])
  }

  lemma {:induction false} NoneMatching(re: string, lines: seq<string>)
    ensures Matching(re, lines) == "" <==> forall k :: 0 <= k < |lines| ==> !Matches(re, lines[k])
    decreases |lines|
  {
    hide Matches;
    if lines != [] {
      var rest := lines[1..];
      NoneMatching(re, rest);
      assert forall k :: 0 <= k < |rest| ==> rest[k] == lines[k + 1];
      assert forall k :: 1 <= k < |lines| ==> lines[k] == rest[k - 1];
    }
  }

  lemma ReachedFirst(re: string, first: string, rest: seq<string>)
    ensures Reached(re, [first] + rest)
            <==> if Bad(first) then forall k :: 0 <= k < |[first] + rest| ==> !Matches(re, ([first] + rest)[k])
                 else Reached(re, rest)
  {
    hide Matches, Bad;
    var lines := [first] + rest;
    assert forall k :: 0 <= k < |rest| ==> lines[k + 1] == rest[k];
    if Bad(first) && Reached(re, lines) {
      forall k | 0 <= k < |lines| ensures !Matches(re, lines[k]) { assert lines[0] == first; }
    }
    if !Bad(first) && Reached(re, rest) {
      forall j, k | 0 <= j <= k < |lines| && Matches(re, lines[k]) ensures !Bad(lines[j]) {
        if j > 0 { assert Matches(re, rest[k - 1]) && lines[j] == rest[j - 1]; }
      }
    }
    if !Bad(first) && Reached(re, lines) {
      forall j, k | 0 <= j <= k < |rest| && Matches(re, rest[k]) ensures !Bad(rest[j]) {
        assert Matches(re, lines[k + 1]) && lines[j + 1] == rest[j];
      }
    }
  }

  /** All the matching lines are printed, in order, exactly when none of them is too long,
      contains a NUL or comes after a line that does. */
  lemma {:induction false} OutputComplete(re: string, s: string)
    ensures Output(re, s) == Matching(re, Lines(s)) <==> Reached(re, Lines(s))
    decreases |s|
  {
    hide Matches, Bad, Reached, Lines, Matching;
    var i := NewLine(s);
    LinesStep(re, s);
    if i < |s| {
      var rest := Lines(s[i + 1..]);
      ReachedFirst(re, s[..i], rest);
      OutputComplete(re, s[i + 1..]);
      NoneMatching(re, Lines(s));
      Cancel(if Matches(re, s[..i]) then s[..i] + "\n" else "", Output(re, s[i + 1..]), Matching(re, rest));
    } else {
      ReachedNone(re);
    }
  }

  // Lines and matching lines, one line at a time.
  lemma LinesStep(re: string, s: string)
    ensures var i := NewLine(s);
            if i == |s| then Lines(s) == [] && Matching(re, []) == "" else
            && Lines(s) == [s[..i]] + Lines(s[i + 1..])
            && Matching(re, Lines(s)) == (if Matches(re, s[..i]) then s[..i] + "\n" else "") + Matching(re, Lines(s[i + 1..]))
  {
    hide Matches;
    var i := NewLine(s);
    if i < |s| {
      var rest := Lines(s[i + 1..]);
      assert Lines(s) == [s[..i]] + rest;
      hide Lines, NewLine;
      assert ([s[..i]] + rest)[0] == s[..i] && ([s[..i]] + rest)[1..] == rest;
    }
  }

  lemma Cancel(p: string, a: string, b: string)
    ensures p + a == p + b <==> a == b
  {
    assert (p + a)[|p|..] == a && (p + b)[|p|..] == b;
  }

  lemma ReachedNone(re: string)
    ensures Reached(re, [])
  {
  }

  // A line of 1023 characters matches the empty pattern and is not printed.
  lemma LongLine()
    ensures var line := seq(SIZE - 1, _ => 'a');
            Output("", line + "\n") == "" && Matching("", Lines(line + "\n")) == line + "\n"
  {
    var line := seq(SIZE - 1, _ => 'a');
    var s := line + "\n";
    NewLineAt(s, |line|);
    assert s[..|line|] == line && s[|line| + 1..] == "";
    assert Lines("") == [] && Lines(s) == [line];
    HereNone(false, line[0..]);
    assert Matches("", line);
    assert [line][1..] == [];
  }
}
