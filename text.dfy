/**
 * The Python string operations the builders rely on: `str.split` with a one-character
 * separator, `str.strip()` without argument, `str(n)` for integers, and the tag-list
 * parser of the route builder, which is a comprehension over the first two.
 */
module Text {

  /** Python's `str.isspace()` for a single character. */
  predicate IsSpace(c: char) {
    || c == ' ' || c == '\t' || c == '\n' || c == '\r'
    || c == '\U{000B}' || c == '\U{000C}'
    || ('\U{001C}' <= c <= '\U{001F}')
    || c == '\U{0085}' || c == '\U{00A0}' || c == '\U{1680}'
    || ('\U{2000}' <= c <= '\U{200A}')
    || c == '\U{2028}' || c == '\U{2029}' || c == '\U{202F}' || c == '\U{205F}' || c == '\U{3000}'
  }

  /** Neither end of `t` is whitespace: what `strip()` leaves behind. */
  predicate Stripped(t: string) {
    t == [] || (!IsSpace(t[0]) && !IsSpace(t[|t| - 1]))
  }

  /** The number of whitespace characters `s` starts with. */
  function LeadingSpace(s: string): (n: nat)
    ensures n <= |s|
    ensures forall i :: 0 <= i < n ==> IsSpace(s[i])
    ensures n < |s| ==> !IsSpace(s[n])
  {
    if |s| > 0 && IsSpace(s[0]) then 1 + LeadingSpace(s[1..]) else 0
  }

  /** The number of whitespace characters `s` ends with. */
  function TrailingSpace(s: string): (n: nat)
    ensures n <= |s|
    ensures forall i :: |s| - n <= i < |s| ==> IsSpace(s[i])
    ensures n < |s| ==> !IsSpace(s[|s| - n - 1])
  {
    if |s| > 0 && IsSpace(s[|s| - 1]) then 1 + TrailingSpace(s[..|s| - 1]) else 0
  }

  /** Python's `s.strip()`: what lies between the leading and the trailing whitespace. */
  function Strip(s: string): (r: string)
    ensures Stripped(r)
    ensures LeadingSpace(s) + |r| <= |s|
    ensures forall i :: 0 <= i < |r| ==> r[i] == s[LeadingSpace(s) + i]
    ensures r == [] <==> forall i :: 0 <= i < |s| ==> IsSpace(s[i])
  {
    var lo := LeadingSpace(s);
    if lo == |s| then []
    else
      var hi := |s| - TrailingSpace(s);
      assert !IsSpace(s[lo]);
      assert lo < hi;
      s[lo..hi]
  }

  /** `strip` removes exactly whitespace from both ends and keeps the middle intact. */
  lemma StripInfix(s: string) returns (lo: nat)
    ensures lo + |Strip(s)| <= |s|
    ensures s[lo..lo + |Strip(s)|] == Strip(s)
    ensures forall i :: 0 <= i < lo ==> IsSpace(s[i])
    ensures forall i :: lo + |Strip(s)| <= i < |s| ==> IsSpace(s[i])
  {
    lo := LeadingSpace(s);
    if lo < |s| {
      assert |Strip(s)| == |s| - TrailingSpace(s) - lo;
    }
  }

  /** A string that is already stripped is left unchanged. */
  lemma StripStripped(t: string)
    requires Stripped(t)
    ensures Strip(t) == t
  {
    if t != [] {
      assert LeadingSpace(t) == 0 && TrailingSpace(t) == 0;
      assert t[0..|t|] == t;
    }
  }

  /** The blank after a comma in "a, b" is removed. */
  lemma StripAfterSpace(t: string)
    requires Stripped(t)
    ensures Strip([' '] + t) == t
  {
    var s := [' '] + t;
    assert s[1..] == t;
    assert LeadingSpace(s) == 1 + LeadingSpace(t);
    if t != [] {
      assert LeadingSpace(t) == 0;
      assert s[|s| - 1] == t[|t| - 1];
      assert TrailingSpace(s) == 0;
      assert s[1..|s|] == t;
    }
  }

  /** ",".join(pieces) with a one-character separator. */
  function Join(pieces: seq<string>, sep: char): string
  {
    if |pieces| == 0 then ""
    else if |pieces| == 1 then pieces[0]
    else pieces[0] + [sep] + Join(pieces[1..], sep)
  }

  /**
   * Python's `s.split(sep)`: the pieces between occurrences of `sep`, empty pieces
   * included, and always at least one piece (`"".split(",") == [""]`).
   */
  function Split(s: string, sep: char): (pieces: seq<string>)
    ensures |pieces| >= 1
    ensures forall k :: 0 <= k < |pieces| ==> sep !in pieces[k]
  {
    if |s| == 0 then [""]
    else
      var rest := Split(s[1..], sep);
      if s[0] == sep then [""] + rest
      else
        var pieces := [[s[0]] + rest[0]] + rest[1..];
        assert pieces[1..] == rest[1..];
        pieces
  }

  /** Joining the pieces with the separator gives back the string split. */
  lemma {:induction false} SplitJoinsBack(s: string, sep: char)
    ensures Join(Split(s, sep), sep) == s
  {
    if |s| > 0 {
      SplitJoinsBack(s[1..], sep);
      var rest := Split(s[1..], sep);
      assert [s[0]] + s[1..] == s;
      if s[0] == sep {
        assert ([""] + rest)[1..] == rest;
      } else {
        var pieces := [[s[0]] + rest[0]] + rest[1..];
        assert pieces[1..] == rest[1..];
        assert |rest| > 1 ==> Join(rest, sep) == rest[0] + [sep] + Join(rest[1..], sep);
      }
    }
  }

  /** A string without the separator splits into itself alone. */
  lemma {:induction false} SplitNoSep(p: string, sep: char)
    requires sep !in p
    ensures Split(p, sep) == [p]
  {
    if |p| > 0 {
      SplitNoSep(p[1..], sep);
      assert [p[0]] + p[1..] == p;
    }
  }

  /** The first piece ends at the first separator. */
  lemma {:induction false} SplitAfterPiece(p: string, sep: char, u: string)
    requires sep !in p
    ensures Split(p + [sep] + u, sep) == [p] + Split(u, sep)
  {
    var s := p + [sep] + u;
    if |p| == 0 {
      assert s[0] == sep && s[1..] == u;
    } else {
      SplitAfterPiece(p[1..], sep, u);
      assert s[0] == p[0] && s[1..] == p[1..] + [sep] + u;
      assert [p[0]] + p[1..] == p;
    }
  }

  /** Splitting undoes joining, when no piece contains the separator. */
  lemma {:induction false} SplitJoin(pieces: seq<string>, sep: char)
    requires |pieces| >= 1
    requires forall k :: 0 <= k < |pieces| ==> sep !in pieces[k]
    ensures Split(Join(pieces, sep), sep) == pieces
  {
    if |pieces| == 1 {
      SplitNoSep(pieces[0], sep);
    } else {
      SplitJoin(pieces[1..], sep);
      SplitAfterPiece(pieces[0], sep, Join(pieces[1..], sep));
    }
  }

  /** `[t.strip() for t in pieces if t]`: empty pieces are dropped before stripping. */
  function StripNonEmpty(pieces: seq<string>): (tags: seq<string>)
    ensures |tags| <= |pieces|
    ensures forall k :: 0 <= k < |tags| ==> Stripped(tags[k])
  {
    if |pieces| == 0 then []
    else (if pieces[0] == "" then [] else [Strip(pieces[0])]) + StripNonEmpty(pieces[1..])
  }

  /** The route builder's tag parser: `[t.strip() for t in tags.split(",") if t]`. */
  function ParseTags(tags: string): (r: seq<string>)
    ensures |r| <= |Split(tags, ',')|
    ensures forall k :: 0 <= k < |r| ==> ',' !in r[k] && Stripped(r[k])
  {
    StripNonEmptyKeepsOut(Split(tags, ','), ',');
    StripNonEmpty(Split(tags, ','))
  }

  /** Stripping only shortens a piece, so it never introduces a separator. */
  lemma {:induction false} StripNonEmptyKeepsOut(pieces: seq<string>, c: char)
    requires forall k :: 0 <= k < |pieces| ==> c !in pieces[k]
    ensures forall k :: 0 <= k < |StripNonEmpty(pieces)| ==> c !in StripNonEmpty(pieces)[k]
  {
    if |pieces| > 0 {
      StripNonEmptyKeepsOut(pieces[1..], c);
      var t := Strip(pieces[0]);
      assert forall i :: 0 <= i < |t| ==> t[i] in pieces[0];
    }
  }

  /** Pieces that are non-empty and already stripped survive the filter unchanged. */
  lemma {:induction false} StripNonEmptyIdentity(pieces: seq<string>)
    requires forall k :: 0 <= k < |pieces| ==> pieces[k] != "" && Stripped(pieces[k])
    ensures StripNonEmpty(pieces) == pieces
  {
    if |pieces| > 0 {
      StripStripped(pieces[0]);
      StripNonEmptyIdentity(pieces[1..]);
      StripNonEmptyCons(pieces[0], pieces[1..]);
      assert [pieces[0]] + pieces[1..] == pieces;
    }
  }

  /** Parsing a comma-joined list of clean tags gives back the same list, in order. */
  lemma ParseTagsRoundTrip(ts: seq<string>)
    requires forall k :: 0 <= k < |ts| ==> ts[k] != "" && ',' !in ts[k] && Stripped(ts[k])
    ensures ParseTags(Join(ts, ',')) == ts
  {
    if |ts| == 0 {
      assert Split("", ',') == [""];
    } else {
      SplitJoin(ts, ',');
      StripNonEmptyIdentity(ts);
    }
  }

  /** An absent tag string is parsed as `""`, which yields no tags. */
  lemma ParseTagsEmpty()
    ensures ParseTags("") == []
  {
    assert Split("", ',') == [""];
  }

  /** Tags written between commas are parsed piece by piece. */
  lemma ParseTagsOfJoin(pieces: seq<string>)
    requires |pieces| >= 1
    requires forall k :: 0 <= k < |pieces| ==> ',' !in pieces[k]
    ensures ParseTags(Join(pieces, ',')) == StripNonEmpty(pieces)
  {
    SplitJoin(pieces, ',');
  }

  /** The tag string of the route tests, "foo, bar, ham", gives three tags. */
  lemma ParseTagsSpaced()
    ensures ParseTags("foo, bar, ham") == ["foo", "bar", "ham"]
  {
    SplitSpacedTags();
    StripSpacedTags();
  }

  lemma SplitSpacedTags()
    ensures Split("foo, bar, ham", ',') == ["foo", " bar", " ham"]
  {
    assert Join(["foo", " bar", " ham"], ',') == "foo, bar, ham";
    SplitJoin(["foo", " bar", " ham"], ',');
  }

  lemma StripSpacedTags()
    ensures StripNonEmpty(["foo", " bar", " ham"]) == ["foo", "bar", "ham"]
  {
    assert " bar" == [' '] + "bar" && " ham" == [' '] + "ham";
    StripSpacedPieces("foo", "bar", "ham");
  }

  lemma StripSpacedPieces(a: string, b: string, c: string)
    requires a != "" && Stripped(a) && Stripped(b) && Stripped(c)
    ensures StripNonEmpty([a, [' '] + b, [' '] + c]) == [a, b, c]
  {
    var b', c' := [' '] + b, [' '] + c;
    StripStripped(a);
    StripAfterSpace(b);
    StripAfterSpace(c);
    StripNonEmptyCons(c', []);
    StripNonEmptyCons(b', [c']);
    StripNonEmptyCons(a, [b', c']);
  }

  /**
   * What the filter keeps: the tags are the stripped non-empty pieces, in their order. There is
   * an increasing map `idx` from tags to pieces that covers exactly the non-empty pieces.
   */
  lemma {:induction false} StripNonEmptySelects(pieces: seq<string>) returns (idx: seq<nat>)
    ensures Selects(pieces, StripNonEmpty(pieces), idx, Strip)
  {
    if |pieces| == 0 {
      return [];
    }
    var rest := pieces[1..];
    var tail := StripNonEmptySelects(rest);
    StripNonEmptyCons(pieces[0], rest);
    assert [pieces[0]] + rest == pieces;
    if pieces[0] == "" {
      idx := Shifted(tail);
      SelectsSkip(pieces, StripNonEmpty(rest), tail, Strip);
    } else {
      idx := [0] + Shifted(tail);
      SelectsTake(pieces, StripNonEmpty(rest), tail, Strip);
    }
  }

  /**
   * `tags` is `f` of the non-empty pieces, in order: `idx` maps each tag to its piece,
   * increases, and covers every non-empty piece.
   */
  ghost predicate Selects(pieces: seq<string>, tags: seq<string>, idx: seq<nat>, f: string -> string) {
    && |idx| == |tags|
    && (forall j :: 0 <= j < |idx| ==> idx[j] < |pieces| && pieces[idx[j]] != "" && tags[j] == f(pieces[idx[j]]))
    && (forall j, k :: 0 <= j < k < |idx| ==> idx[j] < idx[k])
    && (forall m :: 0 <= m < |pieces| && pieces[m] != "" ==> m in idx)
  }

  lemma SelectsSkip(pieces: seq<string>, tags: seq<string>, tail: seq<nat>, f: string -> string)
    requires |pieces| > 0 && pieces[0] == ""
    requires Selects(pieces[1..], tags, tail, f)
    ensures Selects(pieces, tags, Shifted(tail), f)
  {
    var idx := Shifted(tail);
    forall m | 0 <= m < |pieces| && pieces[m] != "" ensures m in idx {
      assert pieces[1..][m - 1] == pieces[m];
      var k :| 0 <= k < |tail| && tail[k] == m - 1;
      assert idx[k] == m;
    }
  }

  lemma SelectsTake(pieces: seq<string>, tags: seq<string>, tail: seq<nat>, f: string -> string)
    requires |pieces| > 0 && pieces[0] != ""
    requires Selects(pieces[1..], tags, tail, f)
    ensures Selects(pieces, [f(pieces[0])] + tags, [0] + Shifted(tail), f)
  {
    TakeMaps(pieces, tags, tail, f);
    TakeIncreases(tail);
    TakeCovers(pieces, tail);
  }

  lemma TakeMaps(pieces: seq<string>, tags: seq<string>, tail: seq<nat>, f: string -> string)
    requires |pieces| > 0 && pieces[0] != ""
    requires Selects(pieces[1..], tags, tail, f)
    ensures var idx, all := [0] + Shifted(tail), [f(pieces[0])] + tags;
      forall j :: 0 <= j < |idx| ==> idx[j] < |pieces| && pieces[idx[j]] != "" && all[j] == f(pieces[idx[j]])
  {
    var idx, all := [0] + Shifted(tail), [f(pieces[0])] + tags;
    forall j | 1 <= j < |idx| ensures idx[j] < |pieces| && pieces[idx[j]] != "" && all[j] == f(pieces[idx[j]]) {
      var q := tail[j - 1];
      assert idx[j] == q + 1 && all[j] == tags[j - 1];
      assert q < |pieces[1..]| && pieces[1..][q] == pieces[q + 1];
    }
  }

  lemma TakeIncreases(tail: seq<nat>)
    requires forall j, k :: 0 <= j < k < |tail| ==> tail[j] < tail[k]
    ensures var idx := [0] + Shifted(tail); forall j, k :: 0 <= j < k < |idx| ==> idx[j] < idx[k]
  {
    var idx := [0] + Shifted(tail);
    forall j, k | 0 <= j < k < |idx| ensures idx[j] < idx[k] {
      if j > 0 {
        assert idx[j] == tail[j - 1] + 1 && idx[k] == tail[k - 1] + 1;
      }
    }
  }

  lemma TakeCovers(pieces: seq<string>, tail: seq<nat>)
    requires |pieces| > 0 && pieces[0] != ""
    requires forall m :: 0 <= m < |pieces[1..]| && pieces[1..][m] != "" ==> m in tail
    ensures var idx := [0] + Shifted(tail); forall m :: 0 <= m < |pieces| && pieces[m] != "" ==> m in idx
  {
    var idx, shifted := [0] + Shifted(tail), Shifted(tail);
    forall m | 0 < m < |pieces| && pieces[m] != "" ensures m in idx {
      var rest := pieces[1..];
      assert rest[m - 1] == pieces[m];
      assert m - 1 in tail;
      var k :| 0 <= k < |tail| && tail[k] == m - 1;
      assert shifted[k] == m;
      assert idx[k + 1] == m;
    }
  }

  /** Every index one further on. */
  function Shifted(idx: seq<nat>): (r: seq<nat>)
    ensures |r| == |idx| && forall j :: 0 <= j < |idx| ==> r[j] == idx[j] + 1
  {
    seq(|idx|, j requires 0 <= j < |idx| => idx[j] + 1)
  }

  /** The filter looks at one piece at a time. */
  lemma StripNonEmptyCons(p: string, rest: seq<string>)
    ensures StripNonEmpty([p] + rest) == (if p == "" then [] else [Strip(p)]) + StripNonEmpty(rest)
  {
    assert ([p] + rest)[1..] == rest;
  }

  /** Three pieces joined by commas. */
  lemma JoinThree(a: string, b: string, c: string)
    ensures Join([a, b, c], ',') == a + [','] + b + [','] + c
  {
    var pieces := [a, b, c];
    assert pieces[1..] == [b, c] && pieces[1..][1..] == [c];
    assert Join([c], ',') == c;
    assert Join([b, c], ',') == b + [','] + c;
    assert Join(pieces, ',') == a + [','] + (b + [','] + c);
  }

  /** An empty token between two commas is dropped... */
  lemma ParseTagsDropsEmpty(a: string, b: string)
    requires a != "" && ',' !in a && Stripped(a)
    requires b != "" && ',' !in b && Stripped(b)
    ensures ParseTags(a + ",," + b) == [a, b]
  {
    JoinThree(a, "", b);
    assert a + [','] + "" + [','] + b == a + ",," + b;
    ParseTagsOfJoin([a, "", b]);
    StripEmptyPiece(a, b);
  }

  lemma StripEmptyPiece(a: string, b: string)
    requires a != "" && b != "" && Stripped(a) && Stripped(b)
    ensures StripNonEmpty([a, "", b]) == [a, b]
  {
    StripStripped(a);
    StripStripped(b);
    StripNonEmptyCons(b, []);
    StripNonEmptyCons("", [b]);
    StripNonEmptyCons(a, ["", b]);
  }

  /** ...while a blank one survives as "", because the emptiness test comes before stripping. */
  lemma ParseTagsKeepsBlank(a: string, b: string)
    requires a != "" && ',' !in a && Stripped(a)
    requires b != "" && ',' !in b && Stripped(b)
    ensures ParseTags(a + ", ," + b) == [a, "", b]
  {
    JoinThree(a, " ", b);
    assert a + [','] + " " + [','] + b == a + ", ," + b;
    ParseTagsOfJoin([a, " ", b]);
    StripBlankPiece(a, b);
  }

  lemma StripBlankPiece(a: string, b: string)
    requires a != "" && b != "" && Stripped(a) && Stripped(b)
    ensures StripNonEmpty([a, " ", b]) == [a, "", b]
  {
    assert " " == [' '] + "";
    StripStripped(a);
    StripStripped(b);
    StripAfterSpace("");
    StripNonEmptyCons(b, []);
    StripNonEmptyCons(" ", [b]);
    StripNonEmptyCons(a, [" ", b]);
  }

  predicate IsDigit(c: char) {
    '0' <= c <= '9'
  }

  function DigitChar(d: nat): (c: char)
    requires d < 10
    ensures IsDigit(c)
  {
    "0123456789"[d]
  }

  /** Python's `str(n)` for a non-negative integer: decimal, no leading zeros. */
  function NatToString(n: nat): (s: string)
    ensures 1 <= |s|
    ensures |s| == 1 <==> n < 10
    ensures forall i :: 0 <= i < |s| ==> IsDigit(s[i])
    ensures n >= 10 ==> s[0] != '0'
  {
    if n < 10 then [DigitChar(n)] else NatToString(n / 10) + [DigitChar(n % 10)]
  }

  /** The number a string of decimal digits denotes. */
  function DigitsValue(s: string): int
    requires forall i :: 0 <= i < |s| ==> IsDigit(s[i])
  {
    if |s| == 0 then 0 else DigitsValue(s[..|s| - 1]) * 10 + (s[|s| - 1] as int - '0' as int)
  }

  /** `str(n)` spells `n`: reading the digits back gives the number. */
  lemma {:induction false} NatToStringValue(n: nat)
    ensures DigitsValue(NatToString(n)) == n
  {
    var s := NatToString(n);
    DigitCharValue(n % 10);
    if n >= 10 {
      assert s[..|s| - 1] == NatToString(n / 10);
      NatToStringValue(n / 10);
    } else {
      assert s[..|s| - 1] == [];
    }
  }

  lemma DigitCharValue(d: nat)
    requires d < 10
    ensures DigitChar(d) as int - '0' as int == d
  {
    var digits := "0123456789";
    assert digits[0] == '0' && digits[1] == '1' && digits[2] == '2' && digits[3] == '3' && digits[4] == '4';
    assert digits[5] == '5' && digits[6] == '6' && digits[7] == '7' && digits[8] == '8' && digits[9] == '9';
  }

  /** Python's `str(i)` for any integer. */
  function IntToString(i: int): string
  {
    if i < 0 then "-" + NatToString(-i) else NatToString(i)
  }

  /** Different numbers print differently, so generated resource names never clash. */
  lemma {:induction false} NatToStringInjective(a: nat, b: nat)
    requires NatToString(a) == NatToString(b)
    ensures a == b
  {
    if a >= 10 && b >= 10 {
      var sa, sb := NatToString(a), NatToString(b);
      assert sa[..|sa| - 1] == NatToString(a / 10);
      assert sb[..|sb| - 1] == NatToString(b / 10);
      NatToStringInjective(a / 10, b / 10);
      assert "0123456789"[a % 10] == "0123456789"[b % 10];
    } else if a < 10 && b < 10 {
      assert "0123456789"[a] == "0123456789"[b];
    }
  }

  /** `prefix + str(i)` names are pairwise distinct over i. */
  lemma NumberedNamesDistinct(prefix: string, a: nat, b: nat)
    requires prefix + NatToString(a) == prefix + NatToString(b)
    ensures a == b
  {
    var x, y := prefix + NatToString(a), prefix + NatToString(b);
    assert NatToString(a) == x[|prefix|..] && NatToString(b) == y[|prefix|..];
    NatToStringInjective(a, b);
  }

  /**
   * `f"{x}-{i}"` determines `i` even when `x` itself contains dashes and digits: the number
   * is everything after the last dash.
   */
  lemma DashNumberSuffix(x: string, y: string, a: nat, b: nat)
    requires x + "-" + NatToString(a) == y + "-" + NatToString(b)
    ensures a == b
  {
    LastDash(x, NatToString(a));
    LastDash(y, NatToString(b));
    if |x| != |y| {
      assert false;
    } else {
      var s := x + "-" + NatToString(a);
      assert s[|x| + 1..] == NatToString(a);
      assert s[|y| + 1..] == NatToString(b);
      NatToStringInjective(a, b);
    }
  }

  /** In `x + "-" + d` with `d` all digits, the dash after `x` is the last one. */
  lemma LastDash(x: string, d: string)
    requires forall k :: 0 <= k < |d| ==> IsDigit(d[k])
    ensures (x + "-" + d)[|x|] == '-'
    ensures forall k :: |x| < k < |x + "-" + d| ==> (x + "-" + d)[k] != '-'
  {
    forall k | |x| < k < |x + "-" + d| ensures (x + "-" + d)[k] != '-' {
      assert (x + "-" + d)[k] == d[k - |x| - 1];
    }
  }
}
