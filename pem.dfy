/**
 * PEM reconstruction of a public key (`base64toPem`): the base64 text of a
 * SubjectPublicKeyInfo is cut into lines of 64 characters, each ended by a line
 * feed, and framed by the `PUBLIC KEY` encapsulation boundaries of RFC 7468
 * (line wrapping: section 2; the `PUBLIC KEY` label: section 13).
 */
module Pem {
  import opened Wrappers

  const Header: string := "-----BEGIN PUBLIC KEY-----\n"
  const Footer: string := "-----END PUBLIC KEY-----"
  const LineWidth: nat := 64

  function Min(a: int, b: int): int { if a <= b then a else b }

  /**
   * JavaScript's `s.substr(start, length)` for a non-negative start and length:
   * at most `length` characters from `start` on, none when `start` is past the end.
   */
  function Substr(s: string, start: nat, length: nat): (r: string)
    ensures start <= |s| ==> r == s[start..Min(start + length, |s|)]
    ensures start > |s| ==> r == []
  {
    if start > |s| then [] else s[start..Min(start + length, |s|)]
  }

  // ---------------------------------------------------------------------------
  // Specification of the PEM text

  /** The consecutive chunks of at most `LineWidth` characters that `s` is cut into. */
  function Lines(s: string): seq<string>
    decreases |s|
  {
    if |s| == 0 then []
    else
      var n := Min(LineWidth, |s|);
      [s[..n]] + Lines(s[n..])
  }

  /** Each line followed by a line feed, one after the other. */
  function Terminated(lines: seq<string>): string
  {
    if lines == [] then [] else lines[0] + "\n" + Terminated(lines[1..])
  }

  /** The lines between the boundaries. */
  function Body(s: string): string
  {
    Terminated(Lines(s))
  }

  /** The PEM text for the base64 text `s`. */
  function PemOf(s: string): string
  {
    Header + Body(s) + Footer
  }

  // ---------------------------------------------------------------------------
  // The loop of base64toPem

  /**
   * Builds the PEM text the way the source does: `result` gathers one line per
   * iteration, `lines` counts them, so `|result| - lines` is the number of input
   * characters consumed so far.
   */
  method Base64ToPem(base64: string) returns (pem: string)
    ensures pem == PemOf(base64)
    ensures |pem| >= |Header| + |Footer|
    ensures pem[..|Header|] == Header
    ensures pem[|pem| - |Footer|..] == Footer
    ensures |base64| == 0 ==> pem == Header + Footer
  {
    var result: string := "";
    var lines: nat := 0;
    while |result| - lines < |base64|
      invariant lines <= |result|
      invariant |result| - lines == Min(LineWidth * lines, |base64|)
      invariant result + Body(base64[|result| - lines..]) == Body(base64)
      decreases |base64| - (|result| - lines)
    {
      ghost var consumed := |result| - lines;
      var chunk := Substr(base64, |result| - lines, LineWidth);
      BodyStep(base64, consumed);
      assert consumed == LineWidth * lines;
      assert |chunk| == Min(LineWidth, |base64| - consumed);
      assert consumed + |chunk| == Min(LineWidth * (lines + 1), |base64|);
      ghost var tail := Body(base64[consumed + |chunk|..]);
      assert Body(base64[consumed..]) == chunk + "\n" + tail;
      assert result + chunk + "\n" + tail == result + (chunk + "\n" + tail);
      result := result + chunk + "\n";
      lines := lines + 1;
    }
    assert base64[|result| - lines..] == [];
    pem := Header + result + Footer;
  }

  /** One iteration: the next line is the next 64 characters (or what is left) from `consumed` on. */
  lemma BodyStep(s: string, consumed: nat)
    requires consumed < |s|
    ensures |Substr(s, consumed, LineWidth)| == Min(LineWidth, |s| - consumed)
    ensures Body(s[consumed..]) == Substr(s, consumed, LineWidth) + "\n" + Body(s[consumed + |Substr(s, consumed, LineWidth)|..])
  {
  }

  // ---------------------------------------------------------------------------
  // Properties of the PEM text

  /** Joins the lines back together. */
  function Concat(lines: seq<string>): string
  {
    if lines == [] then [] else lines[0] + Concat(lines[1..])
  }

  /**
   * The body has ceil(|s| / 64) lines; every line but the last is 64 characters
   * long, the last one has the rest (1 to 64 characters, never an empty line), and
   * together they are `s`.
   */
  lemma {:induction false} LinesShape(s: string)
    ensures |Lines(s)| == (|s| + LineWidth - 1) / LineWidth
    ensures forall i :: 0 <= i < |Lines(s)| - 1 ==> |Lines(s)[i]| == LineWidth
    ensures |s| > 0 ==> |Lines(s)[|Lines(s)| - 1]| == (if |s| % LineWidth == 0 then LineWidth else |s| % LineWidth)
    ensures forall i :: 0 <= i < |Lines(s)| ==> 0 < |Lines(s)[i]| <= LineWidth
    ensures Concat(Lines(s)) == s
  {
    if |s| > 0 {
      var n := Min(LineWidth, |s|);
      LinesShape(s[n..]);
      assert Lines(s) == [s[..n]] + Lines(s[n..]);
      assert Lines(s)[1..] == Lines(s[n..]);
      assert s == s[..n] + s[n..];
    }
  }

  predicate NoNewline(s: string)
  {
    forall i :: 0 <= i < |s| ==> s[i] != '\n'
  }

  /** Removes every line feed. */
  function StripNewlines(t: string): (r: string)
    ensures NoNewline(r)
  {
    if t == [] then []
    else if t[0] == '\n' then StripNewlines(t[1..])
    else [t[0]] + StripNewlines(t[1..])
  }

  /**
   * Reads a PEM text back: the boundaries must frame it, and the base64 text is the
   * body with its line feeds removed.
   */
  function Unwrap(pem: string): (r: Option<string>)
    ensures r.Some? ==> NoNewline(r.value)
  {
    if |pem| >= |Header| + |Footer| && pem[..|Header|] == Header && pem[|pem| - |Footer|..] == Footer
    then Some(StripNewlines(pem[|Header|..|pem| - |Footer|]))
    else None
  }

  lemma {:induction false} StripNewlinesAppend(a: string, b: string)
    ensures StripNewlines(a + b) == StripNewlines(a) + StripNewlines(b)
    decreases |a|
  {
    if a != [] {
      var ab := a + b;
      assert ab[0] == a[0] && ab[1..] == a[1..] + b;
      StripNewlinesAppend(a[1..], b);
      if a[0] != '\n' {
        calc {
          StripNewlines(ab);
          [a[0]] + StripNewlines(a[1..] + b);
          [a[0]] + (StripNewlines(a[1..]) + StripNewlines(b));
          ([a[0]] + StripNewlines(a[1..])) + StripNewlines(b);
        }
      }
    } else {
      assert a + b == b;
    }
  }

  lemma {:induction false} StripNewlinesId(s: string)
    requires NoNewline(s)
    ensures StripNewlines(s) == s
    decreases |s|
  {
    if s != [] {
      StripNewlinesId(s[1..]);
    }
  }

  /** Removing the line feeds of the terminated lines joins them. */
  lemma {:induction false} StripTerminated(lines: seq<string>)
    requires forall i :: 0 <= i < |lines| ==> NoNewline(lines[i])
    ensures StripNewlines(Terminated(lines)) == Concat(lines)
  {
    if lines != [] {
      var first, rest := lines[0], lines[1..];
      assert forall i :: 0 <= i < |rest| ==> rest[i] == lines[i + 1];
      StripNewlinesAppend(first + "\n", Terminated(rest));
      StripNewlinesAppend(first, "\n");
      StripNewlinesId(first);
      StripTerminated(rest);
      assert StripNewlines("\n") == [] by {
        assert "\n"[1..] == [];
      }
      calc {
        StripNewlines(Terminated(lines));
        StripNewlines(first + "\n" + Terminated(rest));
        StripNewlines(first + "\n") + StripNewlines(Terminated(rest));
        StripNewlines(first) + StripNewlines("\n") + Concat(rest);
        first + Concat(rest);
        Concat(lines);
      }
    }
  }

  /** Every line of a newline-free text is newline-free. */
  lemma {:induction false} LinesNoNewline(s: string)
    requires NoNewline(s)
    ensures forall i :: 0 <= i < |Lines(s)| ==> NoNewline(Lines(s)[i])
    decreases |s|
  {
    if |s| > 0 {
      var n := Min(LineWidth, |s|);
      LinesNoNewline(s[n..]);
      assert Lines(s)[1..] == Lines(s[n..]);
    }
  }

  /**
   * Round trip: taking the boundaries and the line feeds off the PEM text of a
   * newline-free base64 text gives that text back.
   */
  lemma RoundTrip(s: string)
    requires NoNewline(s)
    ensures Unwrap(PemOf(s)) == Some(s)
  {
    var pem := PemOf(s);
    assert pem[..|Header|] == Header;
    assert pem[|pem| - |Footer|..] == Footer;
    assert pem[|Header|..|pem| - |Footer|] == Body(s);
    LinesNoNewline(s);
    StripTerminated(Lines(s));
    LinesShape(s);
  }

  /** The body holds one line feed per line and nothing else breaks lines. */
  lemma {:induction false} NewlineCount(lines: seq<string>)
    requires forall i :: 0 <= i < |lines| ==> NoNewline(lines[i])
    ensures Count(Terminated(lines), '\n') == |lines|
  {
    if lines != [] {
      CountAppend(lines[0] + "\n", Terminated(lines[1..]), '\n');
      CountAppend(lines[0], "\n", '\n');
      CountAbsent(lines[0], '\n');
      NewlineCount(lines[1..]);
    }
  }

  function Count(s: string, c: char): nat
  {
    if s == [] then 0 else (if s[0] == c then 1 else 0) + Count(s[1..], c)
  }

  lemma {:induction false} CountAppend(a: string, b: string, c: char)
    ensures Count(a + b, c) == Count(a, c) + Count(b, c)
    decreases |a|
  {
    if a != [] {
      var ab := a + b;
      assert ab[0] == a[0] && ab[1..] == a[1..] + b;
      CountAppend(a[1..], b, c);
    } else {
      assert a + b == b;
    }
  }

  lemma {:induction false} CountAbsent(s: string, c: char)
    requires forall i :: 0 <= i < |s| ==> s[i] != c
    ensures Count(s, c) == 0
    decreases |s|
  {
    if s != [] {
      CountAbsent(s[1..], c);
    }
  }

  /**
   * The body of the PEM text of a newline-free base64 text holds exactly
   * ceil(|s| / 64) line feeds, one ending each line, and the text ends with the
   * footer's last dash: no line feed follows the footer.
   */
  lemma PemLineFeeds(s: string)
    requires NoNewline(s)
    ensures Count(Body(s), '\n') == (|s| + LineWidth - 1) / LineWidth
    ensures PemOf(s)[|PemOf(s)| - 1] == '-'
  {
    LinesNoNewline(s);
    LinesShape(s);
    NewlineCount(Lines(s));
  }
}
