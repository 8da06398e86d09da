/** The string functions the header parsers share: strings.Split, strings.Join and strings.TrimSpace. */
module Text {

  /** unicode.IsSpace */
  predicate IsSpace(c: char) {
    || '\t' <= c <= '\r' || c == ' ' || c == '\U{0085}' || c == '\U{00A0}'
    || c == '\U{1680}' || '\U{2000}' <= c <= '\U{200A}' || c == '\U{2028}' || c == '\U{2029}'
    || c == '\U{202F}' || c == '\U{205F}' || c == '\U{3000}'
  }

  /** The pieces between separators; at least one, and none contains the separator. */
  function Split(s: string, sep: char): (parts: seq<string>)
    ensures |parts| >= 1
  {
    if s == "" then [""]
    else
      After(s[0], Split(s[1..], sep), sep)
  }

  function Join(parts: seq<string>, sep: string): string {
    if |parts| == 0 then ""
    else if |parts| == 1 then parts[0]
    else parts[0] + sep + Join(parts[1..], sep)
  }

  function TrimLeft(s: string): (t: string)
    ensures t == "" || !IsSpace(t[0])
    ensures |t| <= |s| && t == s[|s| - |t|..]
  {
    if s != "" && IsSpace(s[0]) then TrimLeft(s[1..]) else s
  }

  function TrimRight(s: string): (t: string)
    ensures t == "" || !IsSpace(t[|t| - 1])
    ensures t <= s
  {
    if s != "" && IsSpace(s[|s| - 1]) then TrimRight(s[..|s| - 1]) else s
  }

  function TrimSpace(s: string): (t: string)
    ensures Trimmed(t)
  {
    var left := TrimLeft(s);
    var t := TrimRight(left);
    assert t != "" ==> t[0] == left[0];
    t
  }

  /** Neither end is white space. */
  predicate Trimmed(s: string) {
    s == "" || (!IsSpace(s[0]) && !IsSpace(s[|s| - 1]))
  }

  lemma {:induction false} TrimLeftCuts(s: string, i: nat)
    requires i < |s| - |TrimLeft(s)|
    ensures IsSpace(s[i])
  {
    hide IsSpace;
    if i > 0 { TrimLeftCuts(s[1..], i - 1); }
  }

  lemma {:induction false} TrimRightCuts(s: string, i: nat)
    requires |TrimRight(s)| <= i < |s|
    ensures IsSpace(s[i])
  {
    hide IsSpace;
    if i < |s| - 1 { TrimRightCuts(s[..|s| - 1], i); }
  }

  /** Trimming cuts off white space at both ends and nothing else. */
  lemma TrimCuts(s: string) returns (from: nat, to: nat)
    ensures from <= to <= |s| && TrimSpace(s) == s[from..to] && Trimmed(s[from..to])
    ensures forall i :: 0 <= i < from || to <= i < |s| ==> IsSpace(s[i])
  {
    hide IsSpace, TrimLeft, TrimRight;
    var left := TrimLeft(s);
    from := |s| - |left|;
    to := from + |TrimRight(left)|;
    forall i | 0 <= i < from || to <= i < |s| ensures IsSpace(s[i]) {
      if i < from {
        TrimLeftCuts(s, i);
      } else {
        TrimRightCuts(left, i - from);
      }
    }
  }

  lemma TrimLeftBy(c: char, s: string)
    ensures TrimLeft([c] + s) == if IsSpace(c) then TrimLeft(s) else [c] + s
  {
    hide IsSpace;
    assert ([c] + s)[1..] == s;
  }

  /** Trimming stops at a character that is no white space. */
  lemma {:induction false} TrimLeftStops(a: string, c: char, b: string)
    requires !IsSpace(c)
    ensures TrimLeft(a + [c] + b) == TrimLeft(a) + [c] + b
  {
    if a == "" {
      TrimLeftBy(c, b);
      assert a + [c] + b == [c] + b;
    } else {
      var rest := a[1..];
      assert a == [a[0]] + rest && a + [c] + b == [a[0]] + (rest + [c] + b);
      hide *;
      TrimLeftStops(rest, c, b);
      TrimLeftBy(a[0], rest + [c] + b);
      TrimLeftBy(a[0], rest);
    }
  }

  lemma {:induction false} TrimRightStops(a: string, c: char, b: string)
    requires !IsSpace(c)
    ensures TrimRight(a + [c] + b) == a + [c] + TrimRight(b)
  {
    hide IsSpace;
    if b != "" {
      TrimRightStops(a, c, b[..|b| - 1]);
      assert (a + [c] + b)[..|a + [c] + b| - 1] == a + [c] + b[..|b| - 1];
    }
  }

  lemma TrimStops(a: string, c: char, b: string)
    requires !IsSpace(c)
    ensures TrimSpace(a + [c] + b) == TrimLeft(a) + [c] + TrimRight(b)
  {
    hide IsSpace, TrimLeft, TrimRight;
    TrimLeftStops(a, c, b);
    TrimRightStops(TrimLeft(a), c, b);
  }

  lemma TrimmedStays(s: string)
    requires Trimmed(s)
    ensures TrimSpace(s) == s
  {
  }

  lemma TrimFirstSpace(s: string)
    ensures TrimSpace(" " + s) == TrimSpace(s)
  {
    hide TrimRight;
    assert (" " + s)[0] == ' ' && (" " + s)[1..] == s;
  }

  lemma TrimLeadingSpace(s: string)
    requires Trimmed(s)
    ensures TrimSpace(" " + s) == s
  {
    TrimFirstSpace(s);
    TrimmedStays(s);
  }

  lemma {:induction false} SplitWhole(s: string, sep: char)
    requires sep !in s
    ensures Split(s, sep) == [s]
  {
    if s != "" {
      SplitWhole(s[1..], sep);
      assert [s[0]] + s[1..] == s;
    }
  }

  /** A separator between two texts separates their pieces. */
  lemma {:induction false} SplitConcat(a: string, b: string, sep: char)
    ensures Split(a + [sep] + b, sep) == Split(a, sep) + Split(b, sep)
  {
    hide After;
    if a == "" {
      SplitEmptyFirst(b, sep);
    } else {
      SplitConcat(a[1..], b, sep);
      assert a + [sep] + b == [a[0]] + (a[1..] + [sep] + b) && a == [a[0]] + a[1..];
      SplitFirst(a[0], a[1..] + [sep] + b, sep);
      SplitFirst(a[0], a[1..], sep);
      Prepend(a[0], Split(a[1..], sep), Split(b, sep), sep);
    }
  }

  /** The pieces once a character is put in front of the text they came from. */
  function After(c: char, parts: seq<string>, sep: char): seq<string>
    requires |parts| >= 1
  {
    if c == sep then [""] + parts else [[c] + parts[0]] + parts[1..]
  }

  lemma Prepend(c: char, front: seq<string>, back: seq<string>, sep: char)
    requires |front| >= 1
    ensures After(c, front + back, sep) == After(c, front, sep) + back
  {
    assert (front + back)[1..] == front[1..] + back;
  }

  lemma SplitFirst(c: char, s: string, sep: char)
    ensures Split([c] + s, sep) == After(c, Split(s, sep), sep)
  {
    assert ([c] + s)[1..] == s;
  }

  lemma SplitEmptyFirst(b: string, sep: char)
    ensures Split("" + [sep] + b, sep) == Split("", sep) + Split(b, sep)
  {
    assert "" + [sep] + b == [sep] + b;
    SplitFirst(sep, b, sep);
  }

  /** No piece contains the separator. */
  lemma {:induction false} SplitPieces(s: string, sep: char, i: nat)
    requires i < |Split(s, sep)|
    ensures sep !in Split(s, sep)[i]
  {
    if s != "" {
      var rest := Split(s[1..], sep);
      if s[0] == sep {
        if i > 0 { SplitPieces(s[1..], sep, i - 1); }
      } else {
        SplitPieces(s[1..], sep, i);
      }
    }
  }

  /** Trimming and cutting never introduce a character. */
  lemma TrimKeepsOut(s: string, c: char)
    requires c !in s
    ensures c !in TrimSpace(s)
  {
  }
}
