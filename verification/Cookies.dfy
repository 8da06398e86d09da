/** Filtering the Cookie header of a proxied request (internal/handlers/proxy.go:30-74). */
module Cookies {
  import opened Text

  /** The cookie's name: the text before the first "=", or all of it. */
  function NameOf(pair: string): string {
    TrimSpace(Split(pair, '=')[0])
  }

  /** The pieces that are not blank, trimmed. */
  function Filled(pieces: seq<string>): seq<string> {
    if pieces == [] then []
    else
      var front, pair := Filled(pieces[..|pieces| - 1]), TrimSpace(pieces[|pieces| - 1]);
      if pair == "" then front else front + [pair]
  }

  /** The cookie pairs of all the header's lines, in order. */
  function Pairs(lines: seq<string>): seq<string> {
    if lines == [] then []
    else Pairs(lines[..|lines| - 1]) + Filled(Split(lines[|lines| - 1], ';'))
  }

  function Named(pairs: seq<string>, keep: seq<string>): seq<string> {
    if pairs == [] then []
    else
      var front, last := Named(pairs[..|pairs| - 1], keep), pairs[|pairs| - 1];
      if NameOf(last) in keep then front + [last] else front
  }

  function Kept(lines: seq<string>, keep: seq<string>): seq<string> {
    Named(Pairs(lines), keep)
  }

  /** The header's lines afterwards; none when it is dropped. */
  function Stripped(lines: seq<string>, keep: seq<string>): seq<string> {
    if Kept(lines, keep) == [] then [] else [Join(Kept(lines, keep), "; ")]
  }

  /** A request on its way to a proxied service. */
  class Request {
    var cookie: seq<string>

    method StripCookies(keep: seq<string>)
      modifies this
      ensures cookie == Stripped(old(cookie), keep)
    {
      hide *;
      if |keep| == 0 {
        NothingKept(cookie);
        cookie := [];
        return;
      }
      var keepSet := set k | k in keep;
      var kept: seq<string> := [];
      StartEmpty(keep);
      for l := 0 to |cookie|
        invariant cookie == old(cookie)
        invariant kept == Kept(cookie[..l], keep)
      {
        ghost var before := Pairs(cookie[..l]);
        var pieces := Split(cookie[l], ';');
        NextLine(cookie, l, keep);
        for p := 0 to |pieces|
          invariant cookie == old(cookie)
          invariant kept == Named(before + Filled(pieces[..p]), keep)
        {
          NextPiece(before, pieces, p, keep);
          var pair := TrimSpace(pieces[p]);
          if pair == "" { continue; }
          var name := Split(pair, '=')[0];
          if TrimSpace(name) in keepSet { kept := kept + [pair]; }
        }
        assert pieces[..|pieces|] == pieces;
      }
      assert cookie[..|cookie|] == cookie;
      Rewritten(cookie, keep);
      cookie := if |kept| == 0 then [] else [Join(kept, "; ")];
    }
  }

  lemma StartEmpty(keep: seq<string>)
    ensures Kept([], keep) == []
  {
  }

  lemma Rewritten(lines: seq<string>, keep: seq<string>)
    ensures Stripped(lines, keep) == if Kept(lines, keep) == [] then [] else [Join(Kept(lines, keep), "; ")]
  {
  }

  lemma NextLine(lines: seq<string>, l: nat, keep: seq<string>)
    requires l < |lines|
    ensures Kept(lines[..l], keep) == Named(Pairs(lines[..l]) + Filled(Split(lines[l], ';')[..0]), keep)
    ensures Kept(lines[..l + 1], keep) == Named(Pairs(lines[..l]) + Filled(Split(lines[l], ';')), keep)
  {
    hide Split, Named;
    assert lines[..l + 1][..l] == lines[..l];
    assert Pairs(lines[..l]) + [] == Pairs(lines[..l]);
  }

  lemma NextPiece(before: seq<string>, pieces: seq<string>, p: nat, keep: seq<string>)
    requires p < |pieces|
    ensures var kept, pair := Named(before + Filled(pieces[..p]), keep), TrimSpace(pieces[p]);
            Named(before + Filled(pieces[..p + 1]), keep)
            == if pair != "" && TrimSpace(Split(pair, '=')[0]) in keep then kept + [pair] else kept
  {
    hide Split, TrimSpace;
    assert pieces[..p + 1][..p] == pieces[..p];
    var front, pair := Filled(pieces[..p]), TrimSpace(pieces[p]);
    if pair != "" {
      assert before + (front + [pair]) == (before + front) + [pair];
      NamedAppend(before + front, pair, keep);
    }
  }

  lemma NamedAppend(pairs: seq<string>, pair: string, keep: seq<string>)
    ensures Named(pairs + [pair], keep) == if NameOf(pair) in keep then Named(pairs, keep) + [pair] else Named(pairs, keep)
  {
    hide NameOf;
    assert (pairs + [pair])[..|pairs|] == pairs;
  }

  lemma {:induction false} NothingNamed(pairs: seq<string>)
    ensures Named(pairs, []) == []
  {
    if pairs != [] { NothingNamed(pairs[..|pairs| - 1]); }
  }

  lemma NothingKept(lines: seq<string>)
    ensures Stripped(lines, []) == []
  {
    NothingNamed(Pairs(lines));
  }

  // ---- what a reader of the new header sees

  /** The cookie pairs of a header line as section 4.2.1 of RFC 6265 writes them: separated by "; ". */
  function Reread(line: string): (pairs: seq<string>)
    ensures |pairs| >= 1
  {
    if line == "" then [""]
    else if "; " <= line then [""] + Reread(line[2..])
    else
      var rest := Reread(line[1..]);
      [[line[0]] + rest[0]] + rest[1..]
  }

  lemma {:induction false} RereadPair(pair: string, rest: string)
    requires ';' !in pair
    ensures Reread(pair) == [pair]
    ensures Reread(pair + "; " + rest) == [pair] + Reread(rest)
  {
    var line := pair + "; " + rest;
    if pair == "" {
      assert line[2..] == rest;
    } else {
      RereadPair(pair[1..], rest);
      assert pair == [pair[0]] + pair[1..];
      assert line[1..] == pair[1..] + "; " + rest;
      assert line[0] == pair[0] && pair[0] != ';';
    }
  }

  lemma {:induction false} RereadJoin(pairs: seq<string>)
    requires pairs != [] && forall i :: 0 <= i < |pairs| ==> ';' !in pairs[i]
    ensures Reread(Join(pairs, "; ")) == pairs
  {
    if |pairs| == 1 {
      RereadPair(pairs[0], "");
    } else {
      RereadJoin(pairs[1..]);
      RereadPair(pairs[0], Join(pairs[1..], "; "));
    }
  }

  /** A pair as the filter reads it: trimmed, not empty, without separator. */
  predicate Whole(pair: string) {
    pair != "" && Trimmed(pair) && ';' !in pair
  }

  lemma {:induction false} FilledWhole(pieces: seq<string>, i: nat)
    requires forall p :: 0 <= p < |pieces| ==> ';' !in pieces[p]
    requires i < |Filled(pieces)|
    ensures Whole(Filled(pieces)[i])
  {
    hide TrimSpace;
    TrimKeepsOut(pieces[|pieces| - 1], ';');
    if i < |Filled(pieces[..|pieces| - 1])| {
      FilledWhole(pieces[..|pieces| - 1], i);
    }
  }

  lemma {:induction false} PairsWhole(lines: seq<string>, i: nat)
    requires i < |Pairs(lines)|
    ensures Whole(Pairs(lines)[i])
  {
    hide Whole, Split, Filled;
    var front, line := Pairs(lines[..|lines| - 1]), lines[|lines| - 1];
    if i < |front| {
      PairsWhole(lines[..|lines| - 1], i);
    } else {
      forall p | 0 <= p < |Split(line, ';')| ensures ';' !in Split(line, ';')[p] { SplitPieces(line, ';', p); }
      FilledWhole(Split(line, ';'), i - |front|);
    }
  }

  /** Filtering picks pairs: every one kept stood in the header and has a name to keep. */
  lemma {:induction false} NamedPicks(pairs: seq<string>, keep: seq<string>, i: nat) returns (from: nat)
    requires i < |Named(pairs, keep)|
    ensures from < |pairs| && pairs[from] == Named(pairs, keep)[i] && NameOf(pairs[from]) in keep
  {
    hide NameOf;
    if i < |Named(pairs[..|pairs| - 1], keep)| {
      from := NamedPicks(pairs[..|pairs| - 1], keep, i);
    } else {
      from := |pairs| - 1;
    }
  }

  lemma KeptWhole(lines: seq<string>, keep: seq<string>, i: nat)
    requires i < |Kept(lines, keep)|
    ensures Whole(Kept(lines, keep)[i]) && NameOf(Kept(lines, keep)[i]) in keep
  {
    hide Named, Pairs, Whole, NameOf;
    var from := NamedPicks(Pairs(lines), keep, i);
    PairsWhole(lines, from);
  }

  /** Read back as RFC 6265 writes cookies, the new header holds exactly the pairs to keep, in order. */
  lemma HeaderHoldsKept(lines: seq<string>, keep: seq<string>)
    ensures var out := Stripped(lines, keep);
            if out == [] then Kept(lines, keep) == [] else |out| == 1 && Reread(out[0]) == Kept(lines, keep)
  {
    hide Kept, Reread, Join, NameOf;
    var kept := Kept(lines, keep);
    forall i | 0 <= i < |kept| ensures ';' !in kept[i] { KeptWhole(lines, keep, i); }
    if kept != [] { RereadJoin(kept); }
  }

  lemma {:induction false} FilledConcat(a: seq<string>, b: seq<string>)
    ensures Filled(a + b) == Filled(a) + Filled(b)
  {
    hide TrimSpace;
    if b == [] {
      assert a + b == a;
    } else {
      assert (a + b)[..|a + b| - 1] == a + b[..|b| - 1];
      FilledConcat(a, b[..|b| - 1]);
    }
  }

  /** A blank in front of a line changes none of its pairs. */
  lemma LeadingBlank(line: string)
    ensures Filled(Split(" " + line, ';')) == Filled(Split(line, ';'))
  {
    var parts := Split(line, ';');
    SplitFirst(' ', line, ';');
    assert parts == [parts[0]] + parts[1..];
    TrimFirstSpace(parts[0]);
    hide TrimSpace, Split;
    FilledConcat([parts[0]], parts[1..]);
    FilledConcat([" " + parts[0]], parts[1..]);
    assert [parts[0]][..0] == [" " + parts[0]][..0] == [];
  }

  lemma FilledOne(pair: string)
    requires Whole(pair)
    ensures Filled([pair]) == Filled(Split(pair, ';')) == [pair]
  {
    SplitWhole(pair, ';');
    TrimmedStays(pair);
    hide TrimSpace;
    assert [pair][..0] == [] && [] + [pair] == [pair];
  }

  lemma JoinFirst(pairs: seq<string>)
    requires |pairs| > 1
    ensures Join(pairs, "; ") == pairs[0] + [';'] + (" " + Join(pairs[1..], "; "))
  {
  }

  lemma {:induction false} FilledJoin(pairs: seq<string>)
    requires pairs != [] && forall i :: 0 <= i < |pairs| ==> Whole(pairs[i])
    ensures Filled(Split(Join(pairs, "; "), ';')) == pairs
  {
    assert pairs == [pairs[0]] + pairs[1..];
    FilledOne(pairs[0]);
    if |pairs| == 1 {
      assert Join(pairs, "; ") == pairs[0];
    } else {
      var rest := Join(pairs[1..], "; ");
      FilledJoin(pairs[1..]);
      JoinFirst(pairs);
      assert Split(pairs[0], ';') == [pairs[0]] by { SplitWhole(pairs[0], ';'); }
      hide *;
      SplitConcat(pairs[0], " " + rest, ';');
      LeadingBlank(rest);
      FilledConcat([pairs[0]], Split(" " + rest, ';'));
    }
  }

  // ---- what the filter keeps

  lemma {:induction false} NamedConcat(a: seq<string>, b: seq<string>, keep: seq<string>)
    ensures Named(a + b, keep) == Named(a, keep) + Named(b, keep)
  {
    hide NameOf;
    if b == [] {
      assert a + b == a;
    } else {
      assert (a + b)[..|a + b| - 1] == a + b[..|b| - 1];
      NamedConcat(a, b[..|b| - 1], keep);
    }
  }

  lemma {:induction false} PairsConcat(a: seq<string>, b: seq<string>)
    ensures Pairs(a + b) == Pairs(a) + Pairs(b)
  {
    hide Filled, Split;
    if b == [] {
      assert a + b == a;
    } else {
      assert (a + b)[..|a + b| - 1] == a + b[..|b| - 1];
      PairsConcat(a, b[..|b| - 1]);
    }
  }

  /** The lines of the header are filtered one after the other. */
  lemma KeptLines(a: seq<string>, b: seq<string>, keep: seq<string>)
    ensures Kept(a + b, keep) == Kept(a, keep) + Kept(b, keep)
  {
    PairsConcat(a, b);
    NamedConcat(Pairs(a), Pairs(b), keep);
  }

  /** So are the pieces between semicolons. */
  lemma KeptPieces(a: string, b: string, keep: seq<string>)
    ensures Kept([a + ";" + b], keep) == Kept([a], keep) + Kept([b], keep)
  {
    PairsOfLine(a + ";" + b);
    PairsOfLine(a);
    PairsOfLine(b);
    hide Pairs, Filled, Split, Named;
    SplitConcat(a, b, ';');
    FilledConcat(Split(a, ';'), Split(b, ';'));
    NamedConcat(Filled(Split(a, ';')), Filled(Split(b, ';')), keep);
  }

  /** A piece is kept, trimmed, if the text before its first "=", trimmed, is a name to keep, and dropped if not. */
  lemma KeptPiece(name: string, value: string, keep: seq<string>)
    requires ';' !in name && ';' !in value && '=' !in name
    ensures Kept([name + "=" + value], keep) == if TrimSpace(name) in keep then [TrimSpace(name + "=" + value)] else []
  {
    var piece := name + "=" + value;
    var pair := TrimSpace(piece);
    TrimStops(name, '=', value);
    assert '=' !in TrimLeft(name);
    assert TrimSpace(TrimLeft(name)) == TrimSpace(name);
    hide IsSpace, TrimLeft, TrimRight, TrimSpace;
    assert pair == TrimLeft(name) + ['='] + TrimRight(value);
    SplitConcat(TrimLeft(name), TrimRight(value), '=');
    SplitWhole(TrimLeft(name), '=');
    assert NameOf(pair) == TrimSpace(name);
    hide NameOf;
    KeptAlone(piece, keep);
  }

  /** A piece without "=" is its own name; a blank one is dropped. */
  lemma KeptBare(piece: string, keep: seq<string>)
    requires ';' !in piece && '=' !in piece
    ensures Kept([piece], keep) == if TrimSpace(piece) != "" && TrimSpace(piece) in keep then [TrimSpace(piece)] else []
  {
    var pair := TrimSpace(piece);
    TrimKeepsOut(piece, '=');
    TrimmedStays(pair);
    SplitWhole(pair, '=');
    assert NameOf(pair) == pair;
    hide NameOf, TrimSpace;
    KeptAlone(piece, keep);
  }

  lemma KeptAlone(piece: string, keep: seq<string>)
    requires ';' !in piece
    ensures var pair := TrimSpace(piece);
            Kept([piece], keep) == if pair != "" && NameOf(pair) in keep then [pair] else []
  {
    SplitWhole(piece, ';');
    PairsOfLine(piece);
    FilledAlone(piece);
    NamedAlone(TrimSpace(piece), keep);
    hide Split, TrimSpace, NameOf, Pairs, Filled;
    assert Named([], keep) == [];
  }

  lemma FilledAlone(piece: string)
    ensures Filled([piece]) == if TrimSpace(piece) == "" then [] else [TrimSpace(piece)]
  {
    hide TrimSpace;
    assert [piece][..0] == [] && Filled([]) == [];
  }

  lemma NamedAlone(pair: string, keep: seq<string>)
    ensures Named([pair], keep) == if NameOf(pair) in keep then [pair] else []
  {
    hide NameOf;
    assert [pair][..0] == [] && Named([], keep) == [];
  }

  lemma {:induction false} AllNamed(pairs: seq<string>, keep: seq<string>)
    requires forall i :: 0 <= i < |pairs| ==> NameOf(pairs[i]) in keep
    ensures Named(pairs, keep) == pairs
  {
    hide NameOf;
    if pairs != [] {
      AllNamed(pairs[..|pairs| - 1], keep);
    }
  }

  lemma PairsOfLine(line: string)
    ensures Pairs([line]) == Filled(Split(line, ';'))
  {
    hide Filled, Split;
    assert [line][..0] == [] && [] + Filled(Split(line, ';')) == Filled(Split(line, ';'));
  }

  /** The filter reads its own output as exactly the pairs it kept. */
  lemma KeptOfKept(lines: seq<string>, keep: seq<string>)
    ensures Kept(Stripped(lines, keep), keep) == Kept(lines, keep)
  {
    var kept := Kept(lines, keep);
    forall i | 0 <= i < |kept| ensures Whole(kept[i]) && NameOf(kept[i]) in keep { KeptWhole(lines, keep, i); }
    Rewritten(lines, keep);
    StartEmpty(keep);
    AllNamed(kept, keep);
    if kept != [] {
      FilledJoin(kept);
      PairsOfLine(Join(kept, "; "));
      hide Named, Pairs, Stripped, Whole, NameOf;
    }
  }

  /** Filtering a filtered header changes nothing. */
  lemma StripTwice(lines: seq<string>, keep: seq<string>)
    ensures Stripped(Stripped(lines, keep), keep) == Stripped(lines, keep)
  {
    hide Kept;
    KeptOfKept(lines, keep);
  }
}
