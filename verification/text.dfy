/** The handful of Python string operations the contact book relies on:
    argument-less `str.split()`, `str.lower()`, `str.isdigit()` and `str.join`. */
module Text {

  /** The characters argument-less `str.split()` treats as separators
      (Python's whitespace set: the ASCII controls 9-13 and 28-31, the space,
      NEL, NBSP and the Unicode space separators). */
  predicate IsSpace(c: char) {
    var n := c as int;
    || (9 <= n <= 13) || (28 <= n <= 32)
    || n == 0x85 || n == 0xA0 || n == 0x1680
    || (0x2000 <= n <= 0x200A)
    || n == 0x2028 || n == 0x2029 || n == 0x202F || n == 0x205F || n == 0x3000
  }

  /** An ASCII decimal digit. */
  predicate IsDigit(c: char) {
    '0' <= c <= '9'
  }

  /** `c.lower()` restricted to ASCII: 'A'..'Z' map to 'a'..'z', all else is kept. */
  function LowerChar(c: char): char {
    if 'A' <= c <= 'Z' then (c as int + 32) as char else c
  }

  function Lower(s: string): (r: string)
    ensures |r| == |s|
    ensures forall i :: 0 <= i < |s| ==> r[i] == LowerChar(s[i])
  {
    seq(|s|, i requires 0 <= i < |s| => LowerChar(s[i]))
  }

  /** No separator occurs in s. */
  predicate NoSpace(s: string) {
    forall i :: 0 <= i < |s| ==> !IsSpace(s[i])
  }

  /** Every character of s is a separator (true of the empty string). */
  predicate AllSpace(s: string) {
    forall i :: 0 <= i < |s| ==> IsSpace(s[i])
  }

  /** A token `str.split()` can return: non-empty and separator-free. */
  predicate IsWord(s: string) {
    |s| > 0 && NoSpace(s)
  }

  predicate AllWords(ws: seq<string>) {
    forall i :: 0 <= i < |ws| ==> IsWord(ws[i])
  }

  /** The length of the longest separator-free prefix of s. */
  function WordLength(s: string): (n: nat)
    ensures n <= |s|
    ensures NoSpace(s[..n])
    ensures n < |s| ==> IsSpace(s[n])
    decreases |s|
  {
    if |s| == 0 || IsSpace(s[0]) then 0 else 1 + WordLength(s[1..])
  }

  /** Argument-less `s.split()`: the maximal runs of non-separators, in order. */
  function Split(s: string): (words: seq<string>)
    ensures AllWords(words)
    ensures |words| == 0 <==> AllSpace(s)
    decreases |s|
  {
    if |s| == 0 then []
    else if IsSpace(s[0]) then Split(s[1..])
    else
      var n := WordLength(s);
      [s[..n]] + Split(s[n..])
  }

  /** `sep.join(parts)`: it starts with the first part. */
  function Join(sep: string, parts: seq<string>): (r: string)
    ensures |parts| > 0 ==> |parts[0]| <= |r| && r[..|parts[0]|] == parts[0]
    decreases |parts|
  {
    if |parts| == 0 then ""
    else if |parts| == 1 then parts[0]
    else parts[0] + sep + Join(sep, parts[1..])
  }

  /** The words joined by single spaces, a line a user could type. */
  function Unwords(ws: seq<string>): string {
    Join(" ", ws)
  }

  /** s with every separator deleted. */
  function Squeeze(s: string): (r: string)
    ensures NoSpace(r)
    decreases |s|
  {
    if |s| == 0 then ""
    else if IsSpace(s[0]) then Squeeze(s[1..])
    else [s[0]] + Squeeze(s[1..])
  }

  function Concat(ws: seq<string>): string
    decreases |ws|
  {
    if |ws| == 0 then "" else ws[0] + Concat(ws[1..])
  }

  // ----- facts about the definitions above -----

  lemma {:induction false} SqueezeAppend(a: string, b: string)
    ensures Squeeze(a + b) == Squeeze(a) + Squeeze(b)
    decreases |a|
  {
    if |a| == 0 {
      assert a + b == b;
    } else {
      assert (a + b)[1..] == a[1..] + b;
      SqueezeAppend(a[1..], b);
    }
  }

  lemma {:induction false} SqueezeWord(w: string)
    requires NoSpace(w)
    ensures Squeeze(w) == w
    decreases |w|
  {
    if |w| > 0 {
      SqueezeWord(w[1..]);
    }
  }

  /** Splitting loses only the separators: the words, glued together, are
      the line with its whitespace deleted. */
  lemma {:induction false} SplitKeepsText(s: string)
    ensures Concat(Split(s)) == Squeeze(s)
    decreases |s|
  {
    if |s| == 0 {
    } else if IsSpace(s[0]) {
      SplitKeepsText(s[1..]);
    } else {
      var n := WordLength(s);
      assert s == s[..n] + s[n..];
      SqueezeAppend(s[..n], s[n..]);
      SqueezeWord(s[..n]);
      SplitKeepsText(s[n..]);
      assert Split(s)[1..] == Split(s[n..]);
    }
  }

  lemma {:induction false} WordLengthOfWordThenSpace(w: string, rest: string)
    requires NoSpace(w)
    requires |rest| == 0 || IsSpace(rest[0])
    ensures WordLength(w + rest) == |w|
    decreases |w|
  {
    if |w| == 0 {
      assert w + rest == rest;
    } else {
      assert (w + rest)[1..] == w[1..] + rest;
      WordLengthOfWordThenSpace(w[1..], rest);
    }
  }

  /** Split of a word followed by text that starts with a separator. */
  lemma SplitWordThen(w: string, rest: string)
    requires IsWord(w)
    requires |rest| == 0 || IsSpace(rest[0])
    ensures Split(w + rest) == [w] + Split(rest)
  {
    var s := w + rest;
    WordLengthOfWordThenSpace(w, rest);
    assert s[..|w|] == w;
    assert s[|w|..] == rest;
  }

  /** Splitting a space-joined line gives back its words. */
  lemma {:induction false} SplitUnwords(ws: seq<string>)
    requires AllWords(ws)
    ensures Split(Unwords(ws)) == ws
    decreases |ws|
  {
    if |ws| == 0 {
    } else if |ws| == 1 {
      assert Unwords(ws) == ws[0] + "";
      SplitWordThen(ws[0], "");
    } else {
      var tail := " " + Unwords(ws[1..]);
      assert Unwords(ws) == ws[0] + tail;
      SplitWordThen(ws[0], tail);
      assert Split(tail) == Split(Unwords(ws[1..]));
      SplitUnwords(ws[1..]);
    }
  }

  /** Joining one more part appends the separator and that part: the
      join read from the right, as Python builds it. */
  lemma {:induction false} JoinSnoc(sep: string, parts: seq<string>, x: string)
    requires |parts| > 0
    ensures Join(sep, parts + [x]) == Join(sep, parts) + sep + x
    decreases |parts|
  {
    if |parts| == 1 {
      assert (parts + [x])[1..] == [x];
    } else {
      assert (parts + [x])[1..] == parts[1..] + [x];
      JoinSnoc(sep, parts[1..], x);
    }
  }

  /** Lower-casing twice is lower-casing once. */
  lemma LowerIdempotent(s: string)
    ensures Lower(Lower(s)) == Lower(s)
  {
  }

  /** A leading run of separators does not change the split. */
  lemma {:induction false} SplitSkipsSpace(sp: string, s: string)
    requires AllSpace(sp)
    ensures Split(sp + s) == Split(s)
    decreases |sp|
  {
    if |sp| == 0 {
      assert sp + s == s;
    } else {
      assert (sp + s)[1..] == sp[1..] + s;
      SplitSkipsSpace(sp[1..], s);
    }
  }

  /** Separator runs between words: all but the last are non-empty, the
      last (trailing) one may be empty. */
  predicate Gaps(gaps: seq<string>) {
    forall i :: 0 <= i < |gaps| ==> AllSpace(gaps[i]) && (i < |gaps| - 1 ==> |gaps[i]| > 0)
  }

  /** w0 + g0 + w1 + g1 + ... : each word followed by its gap. */
  function Spaced(ws: seq<string>, gaps: seq<string>): string
    requires |gaps| == |ws|
    decreases |ws|
  {
    if |ws| == 0 then "" else ws[0] + gaps[0] + Spaced(ws[1..], gaps[1..])
  }

  /** Split returns the maximal runs of non-separators: any line laid out as
      leading whitespace, then words each followed by a whitespace run,
      splits to exactly those words. */
  lemma {:induction false} SplitSpaced(lead: string, ws: seq<string>, gaps: seq<string>)
    requires AllSpace(lead) && AllWords(ws) && |gaps| == |ws| && Gaps(gaps)
    ensures Split(lead + Spaced(ws, gaps)) == ws
    decreases |ws|
  {
    SplitSkipsSpace(lead, Spaced(ws, gaps));
    if |ws| > 0 {
      var rest := gaps[0] + Spaced(ws[1..], gaps[1..]);
      assert Spaced(ws, gaps) == ws[0] + rest;
      assert |rest| == 0 || IsSpace(rest[0]) by {
        if |gaps[0]| == 0 {
          assert |gaps| == 1 && rest == "";
        } else {
          assert rest[0] == gaps[0][0];
        }
      }
      SplitWordThen(ws[0], rest);
      assert Gaps(gaps[1..]) by {
        forall i | 0 <= i < |gaps[1..]|
          ensures AllSpace(gaps[1..][i]) && (i < |gaps[1..]| - 1 ==> |gaps[1..][i]| > 0)
        {
          assert gaps[1..][i] == gaps[i + 1];
        }
      }
      assert AllWords(ws[1..]) by {
        forall i | 0 <= i < |ws[1..]| ensures IsWord(ws[1..][i]) {
          assert ws[1..][i] == ws[i + 1];
        }
      }
      SplitSpaced(gaps[0], ws[1..], gaps[1..]);
    }
  }

  /** A laid-out line with words starts with its first word's first character. */
  lemma SpacedStartsWithWord(ws: seq<string>, gaps: seq<string>)
    requires |gaps| == |ws| && |ws| > 0 && IsWord(ws[0])
    ensures |Spaced(ws, gaps)| > 0 && Spaced(ws, gaps)[0] == ws[0][0]
  {
    assert Spaced(ws, gaps) == ws[0] + (gaps[0] + Spaced(ws[1..], gaps[1..]));
  }

  /** A layout that starts with a separator but holds words has a
      non-empty leading gap. */
  lemma GapBeforeWords(l: string, ws: seq<string>, g: seq<string>)
    requires |g| == |ws| && |ws| > 0 && IsWord(ws[0])
    requires |l + Spaced(ws, g)| > 0 && IsSpace((l + Spaced(ws, g))[0])
    ensures |l| > 0
  {
    SpacedStartsWithWord(ws, g);
  }

  /** Putting one more word and its gap in front of a layout. */
  lemma SpacedCons(w: string, l: string, ws: seq<string>, g: seq<string>)
    requires |g| == |ws| && AllSpace(l) && Gaps(g) && (|ws| > 0 ==> |l| > 0)
    ensures Gaps([l] + g)
    ensures Spaced([w] + ws, [l] + g) == w + l + Spaced(ws, g)
  {
    var gaps := [l] + g;
    forall i | 0 <= i < |gaps| ensures AllSpace(gaps[i]) && (i < |gaps| - 1 ==> |gaps[i]| > 0) {
      if i > 0 {
        assert gaps[i] == g[i - 1];
      }
    }
    assert ([w] + ws)[1..] == ws && gaps[1..] == g;
  }

  /** A word in front of a layout that begins at a separator (or is
      empty) extends the layout by one word. */
  lemma LayoutCons(w: string, rest: string, l: string, ws: seq<string>, g: seq<string>)
    requires IsWord(w) && AllWords(ws) && |g| == |ws| && AllSpace(l) && Gaps(g)
    requires rest == l + Spaced(ws, g)
    requires |rest| == 0 || IsSpace(rest[0])
    ensures Gaps([l] + g)
    ensures w + rest == Spaced([w] + ws, [l] + g)
  {
    if |ws| > 0 {
      GapBeforeWords(l, ws, g);
    }
    SpacedCons(w, l, ws, g);
  }

  /** Every line is laid out that way around its split: together with
      SplitSpaced, the words of `split()` are determined by the line. */
  lemma {:induction false} SplitShape(s: string) returns (lead: string, gaps: seq<string>)
    ensures AllSpace(lead) && |gaps| == |Split(s)| && Gaps(gaps)
    ensures s == lead + Spaced(Split(s), gaps)
    decreases |s|
  {
    if |s| == 0 {
      lead, gaps := "", [];
    } else if IsSpace(s[0]) {
      var l, g := SplitShape(s[1..]);
      assert Split(s) == Split(s[1..]);
      lead, gaps := [s[0]] + l, g;
      assert s == [s[0]] + (l + Spaced(Split(s[1..]), g));
    } else {
      var n := WordLength(s);
      var w, rest := s[..n], s[n..];
      var l, g := SplitShape(rest);
      assert Split(s) == [w] + Split(rest);
      LayoutCons(w, rest, l, Split(rest), g);
      lead, gaps := "", [l] + g;
      assert s == w + rest;
    }
  }
}
