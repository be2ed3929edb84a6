/** Completion of the typed text from a table of command names. */
module Completion {
  import opened Types
  import opened Memory
  import opened History

  ghost predicate IsString(s: Line) {
    forall i | 0 <= i < |s| :: s[i] != NUL
  }

  // ---------------------------------------------------------------- candidates

  /** The names that extend the typed text, in table order. */
  function Matches(names: seq<Line>, text: Line): (r: seq<Line>)
    ensures forall c :: c in r <==> c in names && text <= c
  {
    if names == [] then []
    else (if text <= names[0] then [names[0]] else []) + Matches(names[1..], text)
  }

  lemma {:induction false} MatchesConcat(a: seq<Line>, b: seq<Line>, text: Line)
    ensures Matches(a + b, text) == Matches(a, text) + Matches(b, text)
  {
    if a == [] {
      assert a + b == b;
    } else {
      assert (a + b)[1..] == a[1..] + b;
      MatchesConcat(a[1..], b, text);
    }
  }

  /** `get_completions` over the table of names. */
  method GetCompletions(names: seq<Line>, line: array<byte>, length: nat) returns (candidates: seq<Line>)
    requires length <= line.Length
    ensures candidates == Matches(names, line[..length])
  {
    candidates := [];
    var i := 0;
    while i < |names|
      invariant 0 <= i <= |names|
      invariant candidates == Matches(names[..i], line[..length])
    {
      if line[..length] <= names[i] {
        candidates := candidates + [names[i]];
      }
      MatchesConcat(names[..i], [names[i]], line[..length]);
      assert names[..i] + [names[i]] == names[..i + 1];
      i := i + 1;
    }
    assert names[..i] == names;
  }

  // ---------------------------------------------------------------- common prefix

  ghost predicate IsCommonPrefix(p: Line, candidates: seq<Line>) {
    forall i | 0 <= i < |candidates| :: p <= candidates[i]
  }

  function Shared(a: Line, b: Line): (r: Line)
    ensures r <= a && r <= b
    ensures |r| < |a| && |r| < |b| ==> a[|r|] != b[|r|]
  {
    if a != [] && b != [] && a[0] == b[0] then [a[0]] + Shared(a[1..], b[1..]) else []
  }

  function CommonPrefix(candidates: seq<Line>): Line
    requires candidates != []
  {
    if |candidates| == 1 then candidates[0]
    else Shared(candidates[0], CommonPrefix(candidates[1..]))
  }

  lemma SharedIsLongest(a: Line, b: Line, p: Line)
    requires p <= a && p <= b
    ensures p <= Shared(a, b)
  {
    var r := Shared(a, b);
    assert |p| <= |r|;
    assert p == a[..|p|] && r == a[..|r|];
  }

  /** `CommonPrefix` is a prefix of every candidate and every common prefix is a prefix of it. */
  lemma {:induction false} CommonPrefixIsLongest(candidates: seq<Line>, p: Line)
    requires candidates != []
    ensures IsCommonPrefix(CommonPrefix(candidates), candidates)
    ensures IsCommonPrefix(p, candidates) <==> p <= CommonPrefix(candidates)
  {
    var r := CommonPrefix(candidates);
    if |candidates| > 1 {
      var rest := candidates[1..];
      CommonPrefixIsLongest(rest, p);
      CommonPrefixIsLongest(rest, r);
      assert forall i | 1 <= i < |candidates| :: candidates[i] == rest[i - 1];
      if IsCommonPrefix(p, candidates) {
        assert IsCommonPrefix(p, rest);
        SharedIsLongest(candidates[0], CommonPrefix(rest), p);
      }
    }
  }

  /** The line after completion, with `candidates` the names that extend `text`. */
  function Completed(text: Line, candidates: seq<Line>, size: nat): Line
  {
    if candidates == [] then text
    else if |candidates| == 1 && |candidates[0]| < size - 1 then candidates[0] + [SPACE]
    else CommonPrefix(candidates)
  }

  /** What C reads at `s[i]`: the terminator just behind the last character. */
  function CharAt(s: Line, i: nat): byte
    requires i <= |s|
  {
    if i < |s| then s[i] else NUL
  }

  /**
   `process_completions`. The name written back must fit the line buffer: a longer one would
   put the terminator outside of it.
   */
  method ProcessCompletions(candidates: seq<Line>, line: array<byte>, length: nat) returns (clen: nat)
    requires length < line.Length
    requires forall c | c in candidates :: IsString(c) && line[..length] <= c
    requires candidates != [] ==> |CommonPrefix(candidates)| < line.Length
    modifies line
    ensures candidates == [] ==> clen == 0 && line[..] == old(line[..])
    ensures candidates != [] ==>
              var text := Completed(old(line[..length]), candidates, line.Length);
              clen == |text| < line.Length && line[..clen] == text && line[clen] == NUL
  {
    clen := 0;
    if candidates == [] {
      return;
    }
    assert candidates[0] in candidates;
    if |candidates| == 1 {
      clen := CompleteOne(candidates[0], line, length);
    } else {
      clen := CompleteMany(candidates, line, length);
    }
    line[clen] := NUL;
  }

  method CompleteOne(name: Line, line: array<byte>, length: nat) returns (clen: nat)
    requires length < line.Length
    requires line[..length] <= name && |name| < line.Length
    modifies line
    ensures clen == |Completed([], [name], line.Length)| < line.Length
    ensures line[..clen] == Completed([], [name], line.Length)
  {
    clen := |name|;
    var c, i := length, length;
    while c < clen && c < line.Length - 1
      invariant length <= c == i <= |name|
      invariant line[..c] == name[..c]
    {
      line[c] := name[i];
      c, i := c + 1, i + 1;
    }
    if c < line.Length - 1 {
      line[c] := SPACE;
      clen := clen + 1;
    }
  }

  method CompleteMany(candidates: seq<Line>, line: array<byte>, length: nat) returns (clen: nat)
    requires length < line.Length
    requires |candidates| > 1
    requires forall c | c in candidates :: IsString(c) && line[..length] <= c
    requires |CommonPrefix(candidates)| < line.Length
    modifies line
    ensures clen == |CommonPrefix(candidates)| && line[..clen] == CommonPrefix(candidates)
  {
    var first := candidates[0];
    assert first in candidates;
    ghost var typed := line[..length];
    forall i | 0 <= i < |candidates| ensures typed <= candidates[i] {
      assert candidates[i] in candidates;
    }
    clen := 0;
    var c := length;
    var cmp := 1;
    assert IsCommonPrefix([], candidates);
    while CharAt(first, clen) != NUL
      invariant 0 <= clen <= |first|
      invariant IsCommonPrefix(first[..clen], candidates)
      invariant c == (if clen < length then length else clen) < line.Length
      invariant line[..c] == first[..c]
      invariant cmp == 1
      decreases |first| - clen
    {
      cmp := SkipAgreeing(candidates, clen);
      if cmp == |candidates| {
        ExtendCommonPrefix(candidates, clen);
        CommonPrefixIsLongest(candidates, first[..clen + 1]);
        if c < line.Length - 1 && clen >= length {
          line[c] := first[clen];
          c := c + 1;
        }
        cmp := 1;
        clen := clen + 1;
      } else {
        break;
      }
    }
    LongestReached(candidates, typed, clen, cmp);
  }

  /** The inner loop: the first candidate that differs from the first one at `clen`, or the end. */
  method SkipAgreeing(candidates: seq<Line>, clen: nat) returns (cmp: nat)
    requires |candidates| > 1
    requires clen < |candidates[0]|
    requires IsCommonPrefix(candidates[0][..clen], candidates)
    requires forall c | c in candidates :: IsString(c)
    ensures 1 <= cmp <= |candidates|
    ensures forall i | 0 <= i < cmp :: |candidates[i]| > clen && candidates[i][clen] == candidates[0][clen]
    ensures cmp < |candidates| ==> |candidates[cmp]| == clen || candidates[cmp][clen] != candidates[0][clen]
  {
    cmp := 1;
    while cmp < |candidates| && CharAt(candidates[0], clen) == CharAt(candidates[cmp], clen)
          && CharAt(candidates[cmp], clen) != NUL
      invariant 1 <= cmp <= |candidates|
      invariant forall i | 0 <= i < cmp :: |candidates[i]| > clen && candidates[i][clen] == candidates[0][clen]
    {
      cmp := cmp + 1;
    }
    if cmp < |candidates| {
      assert candidates[0] in candidates && candidates[cmp] in candidates;
    }
  }

  lemma ExtendCommonPrefix(candidates: seq<Line>, clen: nat)
    requires candidates != [] && clen < |candidates[0]|
    requires IsCommonPrefix(candidates[0][..clen], candidates)
    requires forall i | 0 <= i < |candidates| :: |candidates[i]| > clen && candidates[i][clen] == candidates[0][clen]
    ensures IsCommonPrefix(candidates[0][..clen + 1], candidates)
  {
    forall i | 0 <= i < |candidates| ensures candidates[0][..clen + 1] <= candidates[i] {
      assert candidates[0][..clen + 1] == candidates[0][..clen] + [candidates[0][clen]];
      assert candidates[0][..clen] <= candidates[i];
    }
  }

  /** Where the comparison stops, the common prefix ends. */
  lemma LongestReached(candidates: seq<Line>, typed: Line, clen: nat, cmp: nat)
    requires |candidates| > 1 && clen <= |candidates[0]|
    requires IsCommonPrefix(typed, candidates)
    requires IsCommonPrefix(candidates[0][..clen], candidates)
    requires clen < |candidates[0]| ==>
               cmp < |candidates| && (|candidates[cmp]| <= clen || candidates[cmp][clen] != candidates[0][clen])
    ensures CommonPrefix(candidates) == candidates[0][..clen] && |typed| <= clen
  {
    var r := CommonPrefix(candidates);
    CommonPrefixIsLongest(candidates, candidates[0][..clen]);
    CommonPrefixIsLongest(candidates, typed);
    assert r <= candidates[0];
    assert clen < |candidates[0]| ==> r <= candidates[cmp];
  }
}
