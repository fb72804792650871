/**
  Chilean RUT (national ID) text handling of the login screen: cleaning the
  typed text, the thousands-separator formatting loop, stripping the dots
  again, and the fixed pattern the login form accepts.
 */
module Rut {
  import opened Seqs

  predicate IsDigit(c: char) { '0' <= c <= '9' }

  /** The characters `[0-9kK]` that survive cleaning. */
  predicate IsRutChar(c: char) { IsDigit(c) || c == 'k' || c == 'K' }

  predicate AllDigits(s: string) { forall i :: 0 <= i < |s| ==> IsDigit(s[i]) }

  predicate AllRutChars(s: string) { forall i :: 0 <= i < |s| ==> IsRutChar(s[i]) }

  /** At most 8 body digits plus 1 check character are kept. */
  const MaxCleanLength: nat := 9

  /** The `maxLength` of the RUT text input. */
  const MaxInputLength: nat := 12

  /** `value.replace(/[^0-9kK]/g, '')`. */
  function Clean(s: string): (r: string)
    ensures AllRutChars(r)
    ensures |r| <= |s|
    ensures AllRutChars(s) ==> r == s
  {
    if s == [] then []
    else
      assert s == [s[0]] + s[1..];
      (if IsRutChar(s[0]) then [s[0]] else []) + Clean(s[1..])
  }

  lemma {:induction false} CleanAppend(a: string, b: string)
    ensures Clean(a + b) == Clean(a) + Clean(b)
  {
    if a == [] {
      assert a + b == b;
    } else {
      var h := if IsRutChar(a[0]) then [a[0]] else [];
      ConsAppend(a, b);
      assert Clean(a + b) == h + Clean(a[1..] + b);
      CleanAppend(a[1..], b);
      AppendAssoc(h, Clean(a[1..]), Clean(b));
    }
  }

  /** The cleaned text after the cut to nine characters (`rutClean`). */
  function CleanRut(value: string): (c: string)
    ensures AllRutChars(c) && |c| <= MaxCleanLength
    ensures |c| <= |Clean(value)| && c == Clean(value)[..|c|]
    ensures |c| == MaxCleanLength || c == Clean(value)
  {
    var c := Clean(value);
    if |c| > MaxCleanLength then c[..MaxCleanLength] else c
  }

  /** `toUpperCase` on the characters that reach it: only `k` changes. */
  function UpperRutChar(c: char): (u: char)
    requires IsRutChar(c)
    ensures IsRutChar(u) && u != 'k'
    ensures IsDigit(u) <==> IsDigit(c)
    ensures c != 'k' ==> u == c
  {
    if c == 'k' then 'K' else c
  }

  /** `value.replace(/\./g, '')`. */
  function UnFormat(s: string): (r: string)
    ensures '.' !in r
    ensures '.' !in s ==> r == s
  {
    if s == [] then []
    else
      assert s == [s[0]] + s[1..];
      (if s[0] == '.' then [] else [s[0]]) + UnFormat(s[1..])
  }

  /** Only the dots go: every other character keeps its number of occurrences. */
  lemma {:induction false} UnFormatKeepsOthers(s: string)
    ensures forall c :: c != '.' ==> multiset(UnFormat(s))[c] == multiset(s)[c]
  {
    if s != [] {
      UnFormatKeepsOthers(s[1..]);
      assert s == [s[0]] + s[1..];
    }
  }

  lemma {:induction false} UnFormatAppend(a: string, b: string)
    ensures UnFormat(a + b) == UnFormat(a) + UnFormat(b)
  {
    if a == [] {
      assert a + b == b;
    } else {
      var h := if a[0] == '.' then [] else [a[0]];
      ConsAppend(a, b);
      assert UnFormat(a + b) == h + UnFormat(a[1..] + b);
      UnFormatAppend(a[1..], b);
      AppendAssoc(h, UnFormat(a[1..]), UnFormat(b));
    }
  }

  // ---------------------------------------------------------------------
  // Reference definition of the dot grouping, read from the left: a leading
  // group of 1 to 3 characters, then ".ddd" groups.

  /** Size of the leading group of an `n`-character body. */
  function LeadLength(n: nat): (g: nat)
    requires n > 0
    ensures 1 <= g <= 3 && g <= n && (n - g) % 3 == 0
  {
    if n % 3 == 0 then 3 else n % 3
  }

  function Trios(t: string): string
    requires |t| % 3 == 0
    decreases |t|
  {
    if t == [] then [] else "." + t[..3] + Trios(t[3..])
  }

  /** The body with a thousands-separator dot before every third character from the right. */
  function Grouped(b: string): string
  {
    if b == [] then [] else
      var g := LeadLength(|b|);
      b[..g] + Trios(b[g..])
  }

  /** What `formatRut` returns. */
  function FormattedRut(value: string): string
  {
    var c := CleanRut(value);
    if |c| > 1 then Grouped(c[..|c| - 1]) + "-" + [UpperRutChar(c[|c| - 1])] else c
  }

  // ---------------------------------------------------------------------
  // The formatting loop

  /** The dot in front of the `m` characters done so far, when more are still to come. */
  function PendingDot(m: int, more: bool): string
  {
    if more && m > 0 && m % 3 == 0 then "." else ""
  }

  /** A non-empty body is its leading group followed by its groups of three. */
  lemma GroupedUnfold(b: string, g: nat)
    requires |b| > 0 && g == LeadLength(|b|)
    ensures Grouped(b) == b[..g] + Trios(b[g..])
  {
  }

  /**
    One more character on the left of a grouped suffix: the dot the loop puts
    in front of a completed group of three.
   */
  lemma GroupedPrepend(c: char, t: string)
    ensures Grouped([c] + t) == [c] + PendingDot(|t|, true) + Grouped(t)
  {
    if t == [] {
      var s := [c] + t;
      GroupedUnfold(s, 1);
      assert s[..1] == [c] && s[1..] == [];
    } else if |t| % 3 == 0 {
      GroupedPrependFull(c, t);
    } else {
      GroupedPrependPartial(c, t);
    }
  }

  /** Before a body of whole groups, the new character starts a group of its own. */
  lemma GroupedPrependFull(c: char, t: string)
    requires t != [] && |t| % 3 == 0
    ensures Grouped([c] + t) == [c] + "." + Grouped(t)
  {
    var s := [c] + t;
    GroupedUnfold(s, 1);
    GroupedUnfold(t, 3);
    assert s[..1] == [c] && s[1..] == t;
    var rest := Trios(t[3..]);
    assert Trios(t) == "." + t[..3] + rest;
    assert Grouped(t) == t[..3] + rest;
    assert [c] + ("." + t[..3] + rest) == [c] + "." + (t[..3] + rest);
  }

  /** Before an incomplete leading group, the new character joins it. */
  lemma GroupedPrependPartial(c: char, t: string)
    requires |t| % 3 != 0
    ensures Grouped([c] + t) == [c] + Grouped(t)
  {
    var s := [c] + t;
    var g := LeadLength(|t|);
    assert LeadLength(|s|) == g + 1;
    GroupedUnfold(s, g + 1);
    GroupedUnfold(t, g);
    assert s[..g + 1] == [c] + t[..g];
    assert s[g + 1..] == t[g..];
    var rest := Trios(t[g..]);
    assert ([c] + t[..g]) + rest == [c] + (t[..g] + rest);
  }

  /**
    The text the loop below has built once every position after `i` is
    done: each character prepended, then a dot when it completes a group of
    three from the right and is not the first character.
   */
  function Partial(body: string, i: int): string
    requires -1 <= i < |body|
    decreases |body| - i
  {
    if i == |body| - 1 then ""
    else
      var step := [body[i + 1]] + Partial(body, i + 1);
      if (|body| - (i + 1)) % 3 == 0 && i + 1 != 0 then "." + step else step
  }

  /** What is built after position `i` is the grouped suffix, with the dot still owed in front of it. */
  lemma {:induction false} PartialIsGrouped(body: string, i: int)
    requires -1 <= i < |body|
    ensures Partial(body, i) == PendingDot(|body| - 1 - i, i >= 0) + Grouped(body[i + 1..])
    decreases |body| - i
  {
    if i == |body| - 1 {
      assert body[i + 1..] == [];
    } else {
      var c, rest := body[i + 1], body[i + 2..];
      var owed, g := PendingDot(|rest|, true), Grouped(rest);
      PartialIsGrouped(body, i + 1);
      assert PendingDot(|body| - 1 - (i + 1), i + 1 >= 0) == owed;
      assert Partial(body, i + 1) == owed + g;
      PartialUnfold(body, i);
      AppendAssoc([c], owed, g);
      GroupedPrepend(c, rest);
      SliceCons(body, i + 1);
    }
  }

  /** One step of `Partial`, with its conditional dot written as a `PendingDot`. */
  lemma PartialUnfold(body: string, i: int)
    requires -1 <= i < |body| - 1
    ensures Partial(body, i) == PendingDot(|body| - 1 - i, i >= 0) + ([body[i + 1]] + Partial(body, i + 1))
  {
    var step := [body[i + 1]] + Partial(body, i + 1);
    if !((|body| - (i + 1)) % 3 == 0 && i + 1 != 0) {
      assert "" + step == step;
    }
  }

  /**
    The body-formatting loop: walk the body from its last character to its
    first, prepending each character and, after every third one from the
    right except at the very front, a dot.
   */
  method FormatBody(body: string) returns (formattedBody: string)
    ensures formattedBody == Grouped(body)
  {
    formattedBody := "";
    var i: int := |body| - 1;
    while i >= 0
      invariant -1 <= i < |body|
      invariant formattedBody == Partial(body, i)
    {
      formattedBody := [body[i]] + formattedBody;
      if (|body| - i) % 3 == 0 && i != 0 {
        formattedBody := "." + formattedBody;
      }
      i := i - 1;
    }
    PartialIsGrouped(body, -1);
    assert body[0..] == body;
  }

  /** `formatRut`: clean, cut to nine characters, group the body, append `-` and the check character. */
  method FormatRut(value: string) returns (r: string)
    ensures r == FormattedRut(value)
  {
    var rutClean := Clean(value);
    if |rutClean| > MaxCleanLength {
      rutClean := rutClean[..MaxCleanLength];
    }
    assert rutClean == CleanRut(value);
    if |rutClean| > 1 {
      var body := rutClean[..|rutClean| - 1];
      var dv := UpperRutChar(rutClean[|rutClean| - 1]);
      var formattedBody := FormatBody(body);
      return formattedBody + "-" + [dv];
    }
    return rutClean;
  }

  // ---------------------------------------------------------------------
  // The dot grouping's shape

  lemma {:induction false} TriosLength(t: string)
    requires |t| % 3 == 0
    ensures |Trios(t)| == |t| + |t| / 3
  {
    if t != [] {
      TriosLength(t[3..]);
    }
  }

  lemma {:induction false} TriosDots(t: string)
    requires |t| % 3 == 0 && AllRutChars(t)
    ensures forall k :: 0 <= k < |Trios(t)| ==> (Trios(t)[k] == '.' <==> k % 4 == 0)
    ensures forall k :: 0 <= k < |Trios(t)| && Trios(t)[k] != '.' ==> IsRutChar(Trios(t)[k])
  {
    if t != [] {
      var rest := t[3..];
      assert AllRutChars(rest) by {
        forall i | 0 <= i < |rest| ensures IsRutChar(rest[i]) { assert rest[i] == t[i + 3]; }
      }
      TriosDots(rest);
      var head := "." + t[..3];
      var r := Trios(t);
      assert r == head + Trios(rest);
      forall k | 0 <= k < |r| ensures (r[k] == '.' <==> k % 4 == 0) && (r[k] != '.' ==> IsRutChar(r[k])) {
        if k < 4 {
          assert r[k] == head[k];
          if k > 0 { assert head[k] == t[k - 1]; assert IsRutChar(t[k - 1]); }
        } else {
          assert r[k] == Trios(rest)[k - 4];
        }
      }
    }
  }

  lemma {:induction false} TriosStrip(t: string)
    requires |t| % 3 == 0 && AllRutChars(t)
    ensures UnFormat(Trios(t)) == t && Clean(Trios(t)) == t
  {
    if t != [] {
      var three, rest := t[..3], t[3..];
      RutCharsSplit(t, 3);
      TriosStrip(rest);
      NoDotInRutChars(three);
      var head, groups := "." + three, Trios(rest);
      assert Trios(t) == head + groups;
      UnFormatAppend(head, groups);
      CleanAppend(head, groups);
      UnFormatDot(three);
      CleanDot(three);
      SplitAt(t, 3);
    }
  }

  /** Both halves of a text of RUT characters are texts of RUT characters. */
  lemma RutCharsSplit(t: string, n: nat)
    requires AllRutChars(t) && n <= |t|
    ensures AllRutChars(t[..n]) && AllRutChars(t[n..])
  {
    assert forall i :: 0 <= i < |t| - n ==> t[n..][i] == t[n + i];
  }

  lemma NoDotInRutChars(s: string)
    requires AllRutChars(s)
    ensures '.' !in s
  {
    forall i | 0 <= i < |s| ensures s[i] != '.' { assert IsRutChar(s[i]); }
  }

  lemma CleanDot(t: string)
    ensures Clean("." + t) == Clean(t)
  {
    assert ("." + t)[1..] == t;
  }

  /** The leading group and the groups of three of a non-empty body. */
  lemma GroupedSplit(b: string)
    requires |b| > 0 && AllRutChars(b)
    ensures var g := LeadLength(|b|);
            Grouped(b) == b[..g] + Trios(b[g..]) &&
            AllRutChars(b[..g]) && AllRutChars(b[g..]) && '.' !in b[..g]
  {
    var g := LeadLength(|b|);
    assert AllRutChars(b[g..]) by {
      forall i | 0 <= i < |b| - g ensures IsRutChar(b[g..][i]) { assert b[g..][i] == b[g + i]; }
    }
    assert '.' !in b[..g] by {
      forall i | 0 <= i < g ensures b[..g][i] != '.' { assert IsRutChar(b[i]); }
    }
  }

  /** An n-character body gains (n - 1) / 3 dots. */
  lemma GroupedLength(b: string)
    requires |b| > 0
    ensures |Grouped(b)| == |b| + (|b| - 1) / 3
  {
    var g := LeadLength(|b|);
    TriosLength(b[g..]);
    var q := (|b| - g) / 3;
    assert |b| - g == 3 * q;
    assert (|b| - 1) / 3 == q;
  }

  /**
    The grouped body has no leading dot and a dot exactly at the positions
    that are a positive multiple of four from its end: a leading group of one
    to three characters, then groups of a dot and three characters.
   */
  lemma GroupedDots(b: string)
    requires |b| > 0 && AllRutChars(b)
    ensures forall k :: 0 <= k < |Grouped(b)| ==>
              (Grouped(b)[k] == '.' <==> k > 0 && (|Grouped(b)| - k) % 4 == 0)
    ensures forall k :: 0 <= k < |Grouped(b)| && Grouped(b)[k] != '.' ==> IsRutChar(Grouped(b)[k])
    ensures Grouped(b)[0] != '.'
  {
    var g := LeadLength(|b|);
    var tail := b[g..];
    GroupedSplit(b);
    TriosLength(tail);
    TriosDots(tail);
    LeadThenGroupsDots(b[..g], Trios(tail), |tail| / 3);
  }

  /** A dot-free lead of one to three characters followed by ".ddd" groups. */
  lemma LeadThenGroupsDots(lead: string, groups: string, q: nat)
    requires 1 <= |lead| <= 3 && AllRutChars(lead) && '.' !in lead
    requires |groups| == 4 * q
    requires forall k :: 0 <= k < |groups| ==> (groups[k] == '.' <==> k % 4 == 0)
    requires forall k :: 0 <= k < |groups| && groups[k] != '.' ==> IsRutChar(groups[k])
    ensures var G := lead + groups;
            forall k :: 0 <= k < |G| ==>
              (G[k] == '.' <==> k > 0 && (|G| - k) % 4 == 0) && (G[k] != '.' ==> IsRutChar(G[k]))
  {
    var G := lead + groups;
    var n := |lead|;
    forall k | 0 <= k < |G|
      ensures (G[k] == '.' <==> k > 0 && (|G| - k) % 4 == 0) && (G[k] != '.' ==> IsRutChar(G[k]))
    {
      if k < n {
        assert G[k] == lead[k];
        OffGroupBoundary(n - k, q);
      } else {
        assert G[k] == groups[k - n];
        OnGroupBoundary(k - n, q);
      }
    }
  }

  lemma OffGroupBoundary(r: int, q: nat)
    requires 1 <= r <= 3
    ensures (r + 4 * q) % 4 != 0
  {
  }

  lemma OnGroupBoundary(j: int, q: nat)
    requires 0 <= j < 4 * q
    ensures (4 * q - j) % 4 == 0 <==> j % 4 == 0
  {
    var m := j % 4;
    assert j == 4 * (j / 4) + m;
    assert 4 * q - j == 4 * (q - j / 4 - 1) + (4 - m) || m == 0;
  }

  /** Removing the dots from the grouped body gives the body back; so does cleaning it. */
  lemma GroupedStrip(b: string)
    requires AllRutChars(b)
    ensures UnFormat(Grouped(b)) == b && Clean(Grouped(b)) == b
  {
    if b != [] {
      GroupedUnFormat(b);
      GroupedClean(b);
    }
  }

  lemma GroupedUnFormat(b: string)
    requires |b| > 0 && AllRutChars(b)
    ensures UnFormat(Grouped(b)) == b
  {
    var g := LeadLength(|b|);
    var lead, tail := b[..g], b[g..];
    GroupedSplit(b);
    var T := Trios(tail);
    TriosStrip(tail);
    UnFormatAppend(lead, T);
    assert UnFormat(lead) == lead;
    SplitAt(b, g);
  }

  lemma GroupedClean(b: string)
    requires |b| > 0 && AllRutChars(b)
    ensures Clean(Grouped(b)) == b
  {
    var g := LeadLength(|b|);
    var lead, tail := b[..g], b[g..];
    GroupedSplit(b);
    var T := Trios(tail);
    TriosStrip(tail);
    CleanAppend(lead, T);
    assert Clean(lead) == lead;
    SplitAt(b, g);
  }

  /** The three facts above together. */
  lemma GroupedShape(b: string)
    requires |b| > 0 && AllRutChars(b)
    ensures |Grouped(b)| == |b| + (|b| - 1) / 3
    ensures forall k :: 0 <= k < |Grouped(b)| ==>
              (Grouped(b)[k] == '.' <==> k > 0 && (|Grouped(b)| - k) % 4 == 0)
    ensures UnFormat(Grouped(b)) == b && Clean(Grouped(b)) == b
  {
    GroupedLength(b);
    GroupedDots(b);
    GroupedStrip(b);
  }

  /** A 7- or 8-character body, the two that the login pattern can accept, written out. */
  lemma GroupedSevenOrEight(b: string)
    requires |b| == 7 || |b| == 8
    ensures Grouped(b) == b[..|b| - 6] + "." + b[|b| - 6..|b| - 3] + "." + b[|b| - 3..]
  {
    var g := LeadLength(|b|);
    assert g == |b| - 6;
    var t := b[g..];
    assert t[3..][3..] == [];
    assert Trios(t[3..]) == "." + t[3..][..3] + Trios(t[3..][3..]);
    assert Trios(t) == "." + t[..3] + Trios(t[3..]);
    assert t[..3] == b[|b| - 6..|b| - 3];
    assert t[3..][..3] == b[|b| - 3..];
  }

  // ---------------------------------------------------------------------
  // Properties of formatRut

  /** The formatted text always fits the input's `maxLength` of 12. */
  lemma FormattedFitsInput(value: string)
    ensures |FormattedRut(value)| <= MaxInputLength
  {
    var c := CleanRut(value);
    if |c| > 1 {
      GroupedLength(c[..|c| - 1]);
    }
  }

  /**
    Up to one cleaned character comes back as it is; from two on, the output
    is the grouped body, one `-` as its second-to-last character, and the
    upper-cased check character.
   */
  lemma FormattedShape(value: string)
    ensures var c, r := CleanRut(value), FormattedRut(value);
            (|c| <= 1 ==> r == c) &&
            (|c| > 1 ==>
               |r| >= 3 &&
               (forall k :: 0 <= k < |r| ==> (r[k] == '-' <==> k == |r| - 2)) &&
               r[|r| - 1] == UpperRutChar(c[|c| - 1]) &&
               r[..|r| - 2] == Grouped(c[..|c| - 1]) &&
               UnFormat(r[..|r| - 2]) == c[..|c| - 1])
  {
    var c, r := CleanRut(value), FormattedRut(value);
    if |c| > 1 {
      var body := c[..|c| - 1];
      assert AllRutChars(body);
      GroupedLength(body);
      GroupedDots(body);
      GroupedStrip(body);
      var G := Grouped(body);
      var u := UpperRutChar(c[|c| - 1]);
      assert r == G + "-" + [u];
      assert r[..|r| - 2] == G;
      forall k | 0 <= k < |r| ensures r[k] == '-' <==> k == |r| - 2 {
        if k < |G| {
          assert r[k] == G[k];
        } else if k == |r| - 1 {
          assert r[k] == u;
        }
      }
    }
  }

  /** Formatting already formatted text changes nothing (the input re-formats on every change). */
  lemma FormatIdempotent(value: string)
    ensures FormattedRut(FormattedRut(value)) == FormattedRut(value)
  {
    var c := CleanRut(value);
    var r := FormattedRut(value);
    if |c| > 1 {
      var body := c[..|c| - 1];
      var u := UpperRutChar(c[|c| - 1]);
      var g := Grouped(body);
      assert r == g + "-" + [u];
      CleanFormatted(body, u);
      var c2 := CleanRut(r);
      assert c2 == body + [u];
      SnocParts(body, u);
      assert c2[..|c2| - 1] == body && c2[|c2| - 1] == u;
      assert UpperRutChar(u) == u;
      assert FormattedRut(r) == g + "-" + [u];
    } else {
      assert CleanRut(c) == c;
    }
  }

  /** Cleaning formatted text drops the dots and the dash only. */
  lemma CleanFormatted(body: string, u: char)
    requires AllRutChars(body) && IsRutChar(u)
    ensures Clean(Grouped(body) + "-" + [u]) == body + [u]
  {
    var g := Grouped(body);
    GroupedStrip(body);
    CleanAppend(g + "-", [u]);
    CleanAppend(g, "-");
    assert Clean("-") == [];
    assert Clean([u]) == [u];
    assert body + [] == body;
  }

  lemma SnocParts(body: string, u: char)
    ensures var s := body + [u]; |s| == |body| + 1 && s[..|body|] == body && s[|body|] == u
  {
  }

  /** A `k` typed before the last character stays in the body, left of the dash. */
  lemma BodyKeepsK()
    ensures FormattedRut("1k23") == "1k2-3"
  {
    assert Clean("3") == "3";
    assert Clean("23") == "23";
    assert Clean("k23") == "k23";
    assert Clean("1k23") == "1k23";
    assert Grouped("1k2") == "1k2";
  }

  /** Removing the dots from formatted text leaves the body, `-` and the upper-cased check character. */
  lemma UnFormatFormatted(value: string)
    ensures var c := CleanRut(value);
            UnFormat(FormattedRut(value)) ==
              if |c| > 1 then c[..|c| - 1] + "-" + [UpperRutChar(c[|c| - 1])] else c
  {
    var c := CleanRut(value);
    if |c| > 1 {
      var body := c[..|c| - 1];
      var u := UpperRutChar(c[|c| - 1]);
      GroupedStrip(body);
      UnFormatAppend(Grouped(body) + "-", [u]);
      UnFormatAppend(Grouped(body), "-");
      assert UnFormat("-") == "-";
      assert UnFormat([u]) == [u];
    } else {
      assert '.' !in c by {
        forall i | 0 <= i < |c| ensures c[i] != '.' { assert IsRutChar(c[i]); }
      }
    }
  }

  // ---------------------------------------------------------------------
  // The login pattern

  /** `/^(\d{1,3}(?:\.\d{3}){2}-[\dkK])$/`: the length fixes the size h of the leading group. */
  predicate IsValidRut(s: string)
  {
    11 <= |s| <= 13 &&
    var h := |s| - 10;
    AllDigits(s[..h]) && s[h] == '.' &&
    AllDigits(s[h + 1..h + 4]) && s[h + 4] == '.' &&
    AllDigits(s[h + 5..h + 8]) && s[h + 8] == '-' &&
    IsRutChar(s[h + 9])
  }

  /** The accepted text assembled from its parts: head, two groups of three, check character. */
  function RutText(head: string, mid: string, low: string, dv: char): string
  {
    head + "." + mid + "." + low + "-" + [dv]
  }

  /** Every accepted text is assembled from its parts, and its parts are what the pattern names. */
  lemma PatternParts(head: string, mid: string, low: string, dv: char)
    requires 1 <= |head| <= 3 && |mid| == 3 && |low| == 3
    ensures IsValidRut(RutText(head, mid, low, dv)) <==>
              AllDigits(head) && AllDigits(mid) && AllDigits(low) && IsRutChar(dv)
  {
    var s := RutText(head, mid, low, dv);
    var h := |head|;
    assert |s| == h + 10;
    assert s[..h] == head;
    assert s[h + 1..h + 4] == mid;
    assert s[h + 5..h + 8] == low;
    assert s[h] == '.' && s[h + 4] == '.' && s[h + 8] == '-' && s[h + 9] == dv;
  }

  lemma ValidIsRutText(s: string)
    requires IsValidRut(s)
    ensures var h := |s| - 10;
            s == RutText(s[..h], s[h + 1..h + 4], s[h + 5..h + 8], s[h + 9])
  {
  }

  lemma AllDigitsAppend(a: string, b: string)
    ensures AllDigits(a + b) <==> AllDigits(a) && AllDigits(b)
  {
    if AllDigits(a) && AllDigits(b) {
      forall i | 0 <= i < |a + b| ensures IsDigit((a + b)[i]) {
        if i >= |a| { assert (a + b)[i] == b[i - |a|]; }
      }
    }
    if AllDigits(a + b) {
      forall i | 0 <= i < |b| ensures IsDigit(b[i]) { assert (a + b)[|a| + i] == b[i]; }
      forall i | 0 <= i < |a| ensures IsDigit(a[i]) { assert (a + b)[i] == a[i]; }
    }
  }

  /** Formatted text of a 7- or 8-character body is accepted exactly when the body is all digits. */
  lemma ValidFormattedLong(value: string)
    requires var c := CleanRut(value); |c| == 8 || |c| == 9
    ensures var c := CleanRut(value); IsValidRut(FormattedRut(value)) <==> AllDigits(c[..|c| - 1])
  {
    var c := CleanRut(value);
    var body := c[..|c| - 1];
    GroupedSevenOrEight(body);
    var h := |body| - 6;
    var a, b, d := body[..h], body[h..h + 3], body[h + 3..];
    var u := UpperRutChar(c[|c| - 1]);
    assert FormattedRut(value) == RutText(a, b, d, u);
    PatternParts(a, b, d, u);
    SplitThree(body, h, h + 3);
    AllDigitsAppend(a, b);
    AllDigitsAppend(a + b, d);
  }

  /** Formatted text of any other length is too short for the pattern. */
  lemma ValidFormattedShort(value: string)
    requires var c := CleanRut(value); |c| < 8
    ensures !IsValidRut(FormattedRut(value))
  {
    var c := CleanRut(value);
    if |c| > 1 {
      var body := c[..|c| - 1];
      GroupedLength(body);
      assert |body| <= 6 && (|body| - 1) / 3 <= 1;
      assert |FormattedRut(value)| == |Grouped(body)| + 2;
    }
  }

  /**
    The pattern accepts formatted text exactly when the cleaned text has 8
    or 9 characters and every character before the check character is a digit.
   */
  lemma ValidFormatted(value: string)
    ensures var c := CleanRut(value);
            IsValidRut(FormattedRut(value)) <==>
              (8 <= |c| <= 9 && AllDigits(c[..|c| - 1]))
  {
    var c := CleanRut(value);
    if |c| == 8 || |c| == 9 {
      ValidFormattedLong(value);
    } else {
      ValidFormattedShort(value);
    }
  }

  /** The dot-free form of an accepted RUT: 7 to 9 digits, `-`, the check character. */
  predicate IsPlainRut(u: string) {
    9 <= |u| <= 11 && AllDigits(u[..|u| - 2]) && u[|u| - 2] == '-' && IsRutChar(u[|u| - 1])
  }

  /** What the login request carries for accepted text: its digits, `-`, the check character. */
  lemma UnFormatValid(s: string)
    requires IsValidRut(s)
    ensures var h := |s| - 10;
            UnFormat(s) == s[..h] + s[h + 1..h + 4] + s[h + 5..h + 8] + "-" + [s[h + 9]]
    ensures IsPlainRut(UnFormat(s))
  {
    var h := |s| - 10;
    var a, b, d, x := s[..h], s[h + 1..h + 4], s[h + 5..h + 8], s[h + 9];
    ValidIsRutText(s);
    UnFormatRutText(a, b, d, x);
    var m := a + b + d;
    DashParts(m, x);
    AllDigitsAppend(a, b);
    AllDigitsAppend(a + b, d);
  }

  lemma DashParts(m: string, x: char)
    ensures var u := m + "-" + [x];
            |u| == |m| + 2 && u[..|u| - 2] == m && u[|u| - 2] == '-' && u[|u| - 1] == x
  {
  }

  lemma UnFormatRutText(a: string, b: string, d: string, x: char)
    requires AllDigits(a) && AllDigits(b) && AllDigits(d) && IsRutChar(x)
    ensures UnFormat(RutText(a, b, d, x)) == a + b + d + "-" + [x]
  {
    NoDotInDigits(a);
    NoDotInDigits(b);
    NoDotInDigits(d);
    var t4 := "-" + [x];
    var t3 := d + t4;
    var t2 := "." + t3;
    var t1 := b + t2;
    var t0 := "." + t1;
    RutTextNested(a, b, d, x);
    assert '.' !in t4 by {
      assert t4[0] == '-' && t4[1] == x && |t4| == 2;
    }
    UnFormatNoDotPrefix(d, t4);
    UnFormatDot(t3);
    UnFormatNoDotPrefix(b, t2);
    UnFormatDot(t1);
    UnFormatNoDotPrefix(a, t0);
    JoinNested(a, b, d, x);
  }

  lemma RutTextNested(a: string, b: string, d: string, x: char)
    ensures RutText(a, b, d, x) == a + ("." + (b + ("." + (d + ("-" + [x])))))
  {
  }

  lemma JoinNested(a: string, b: string, d: string, x: char)
    ensures a + (b + (d + ("-" + [x]))) == a + b + d + "-" + [x]
  {
  }

  lemma UnFormatNoDotPrefix(a: string, t: string)
    requires '.' !in a
    ensures UnFormat(a + t) == a + UnFormat(t)
  {
    UnFormatAppend(a, t);
  }

  lemma UnFormatDot(t: string)
    ensures UnFormat("." + t) == UnFormat(t)
  {
    assert ("." + t)[1..] == t;
  }

  lemma NoDotInDigits(a: string)
    requires AllDigits(a)
    ensures '.' !in a
  {
    forall i | 0 <= i < |a| ensures a[i] != '.' { assert IsDigit(a[i]); }
  }
}
