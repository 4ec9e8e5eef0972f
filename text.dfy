/**
 * The few operations on Java strings the services rely on:
 * `String.contains`, `String.replace` with the `{player}` placeholder,
 * and `String.equalsIgnoreCase`.
 */
module Text {

  /** The placeholder a pre-authored prompt may embed for a drawn member. */
  const Placeholder: string := "{player}"

  /** p occurs in s starting at position i. */
  predicate OccursAt(s: string, p: string, i: int)
  {
    0 <= i <= |s| - |p| && s[i..i + |p|] == p
  }

  /** `s.contains(p)`: p occurs somewhere in s. */
  function Contains(s: string, p: string): (r: bool)
    ensures r <==> exists i :: OccursAt(s, p, i)
    decreases |s|
  {
    if |p| > |s| then false
    else if s[..|p|] == p then
      assert OccursAt(s, p, 0);
      true
    else
      assert !OccursAt(s, p, 0) by { assert s[0..0 + |p|] == s[..|p|]; }
      assert forall i | OccursAt(s, p, i) :: OccursAt(s[1..], p, i - 1) by {
        forall i | OccursAt(s, p, i) ensures OccursAt(s[1..], p, i - 1) {
          assert i != 0;
          var w := s[1..][i - 1..i - 1 + |p|];
          assert forall k | 0 <= k < |p| :: w[k] == s[i..i + |p|][k];
          assert s[i..i + |p|] == w;
        }
      }
      assert forall j | OccursAt(s[1..], p, j) :: OccursAt(s, p, j + 1) by {
        forall j | OccursAt(s[1..], p, j) ensures OccursAt(s, p, j + 1) {
          assert s[j + 1..j + 1 + |p|] == s[1..][j..j + |p|];
        }
      }
      Contains(s[1..], p)
  }

  /** The pieces of s between the occurrences of the placeholder, as `replace` finds them. */
  function SplitOnPlaceholder(s: string): (pieces: seq<string>)
    ensures |pieces| >= 1
    decreases |s|
  {
    if |s| < |Placeholder| then [s]
    else if s[..|Placeholder|] == Placeholder then [""] + SplitOnPlaceholder(s[|Placeholder|..])
    else
      var rest := SplitOnPlaceholder(s[1..]);
      [[s[0]] + rest[0]] + rest[1..]
  }

  /** The pieces joined with sep between consecutive ones. */
  function Join(pieces: seq<string>, sep: string): string
    requires |pieces| >= 1
  {
    if |pieces| == 1 then pieces[0] else pieces[0] + sep + Join(pieces[1..], sep)
  }

  lemma {:induction false} JoinConsFirst(c: char, pieces: seq<string>, sep: string)
    requires |pieces| >= 1
    ensures Join([[c] + pieces[0]] + pieces[1..], sep) == [c] + Join(pieces, sep)
  {
    var p' := [[c] + pieces[0]] + pieces[1..];
    if |pieces| > 1 {
      assert p'[1..] == pieces[1..];
    }
  }

  /**
   * `s.replace("{player}", name)`, scanning left to right: the name stands
   * exactly where the placeholders stood, between the same pieces of text
   * (which NoPieceHoldsPlaceholder shows are free of it).
   */
  function ReplacePlaceholder(s: string, name: string): (r: string)
    ensures r == Join(SplitOnPlaceholder(s), name)
    decreases |s|
  {
    if |s| < |Placeholder| then s
    else if s[..|Placeholder|] == Placeholder then
      assert ([""] + SplitOnPlaceholder(s[|Placeholder|..]))[1..] == SplitOnPlaceholder(s[|Placeholder|..]);
      name + ReplacePlaceholder(s[|Placeholder|..], name)
    else
      JoinConsFirst(s[0], SplitOnPlaceholder(s[1..]), name);
      [s[0]] + ReplacePlaceholder(s[1..], name)
  }

  /** The first piece is where the prompt begins. */
  lemma {:induction false} FirstPieceIsPrefix(s: string)
    ensures SplitOnPlaceholder(s)[0] <= s
    decreases |s|
  {
    if |s| >= |Placeholder| && s[..|Placeholder|] != Placeholder {
      FirstPieceIsPrefix(s[1..]);
      var first := SplitOnPlaceholder(s[1..])[0];
      assert [s[0]] + first == s[..|first| + 1];
    }
  }

  /** No piece holds the placeholder, so `replace` leaves no occurrence behind. */
  lemma {:induction false} NoPieceHoldsPlaceholder(s: string)
    ensures forall p | p in SplitOnPlaceholder(s) :: !Contains(p, Placeholder)
    decreases |s|
  {
    if |s| < |Placeholder| {
    } else if s[..|Placeholder|] == Placeholder {
      NoPieceHoldsPlaceholder(s[|Placeholder|..]);
    } else {
      NoPieceHoldsPlaceholder(s[1..]);
      FirstPieceIsPrefix(s[1..]);
      var rest := SplitOnPlaceholder(s[1..]);
      var first := [s[0]] + rest[0];
      assert first <= s;
      assert !Contains(rest[0], Placeholder) by { assert rest[0] in rest; }
      if |Placeholder| <= |first| {
        assert first[..|Placeholder|] == s[..|Placeholder|];
      }
      assert !Contains(first, Placeholder);
      forall p | p in SplitOnPlaceholder(s) ensures !Contains(p, Placeholder) {
        if p != first {
          assert p in rest[1..];
        }
      }
    }
  }

  /** Joining the pieces with the placeholder itself gives back the prompt. */
  lemma {:induction false} PiecesRebuildText(s: string)
    ensures Join(SplitOnPlaceholder(s), Placeholder) == s
    decreases |s|
  {
    if |s| < |Placeholder| {
    } else if s[..|Placeholder|] == Placeholder {
      PiecesRebuildText(s[|Placeholder|..]);
      var rest := SplitOnPlaceholder(s[|Placeholder|..]);
      assert ([""] + rest)[1..] == rest;
      assert s == s[..|Placeholder|] + s[|Placeholder|..];
    } else {
      PiecesRebuildText(s[1..]);
      JoinConsFirst(s[0], SplitOnPlaceholder(s[1..]), Placeholder);
      assert s == [s[0]] + s[1..];
    }
  }

  /** The prompt contains the placeholder exactly when it splits into more than one piece,
      that is, exactly when `replace` inserts the name at least once. */
  lemma {:induction false} PlaceholderSplitsText(s: string)
    ensures Contains(s, Placeholder) <==> |SplitOnPlaceholder(s)| > 1
    decreases |s|
  {
    if |s| >= |Placeholder| && s[..|Placeholder|] != Placeholder {
      PlaceholderSplitsText(s[1..]);
    }
  }

  /** A prompt without the placeholder is returned unchanged. */
  lemma {:induction false} ReplaceWithoutPlaceholder(s: string, name: string)
    requires !Contains(s, Placeholder)
    ensures ReplacePlaceholder(s, name) == s
    decreases |s|
  {
    if |s| >= |Placeholder| {
      ReplaceWithoutPlaceholder(s[1..], name);
      assert s == [s[0]] + s[1..];
    }
  }

  /** ASCII case folding, as `Character.toLowerCase` does on ASCII letters. */
  function ToLowerAscii(c: char): char
  {
    if 'A' <= c <= 'Z' then (c as int + 32) as char else c
  }

  /** The text with every ASCII letter folded to lower case. */
  function LowerAscii(s: string): (r: string)
    ensures |r| == |s| && forall i | 0 <= i < |s| :: r[i] == ToLowerAscii(s[i])
  {
    if s == [] then [] else [ToLowerAscii(s[0])] + LowerAscii(s[1..])
  }

  /**
   * `a.equalsIgnoreCase(b)` on ASCII text: same length and the same letters
   * position by position up to case, which is to say the same text once folded.
   */
  function EqualsIgnoreCase(a: string, b: string): (r: bool)
    ensures r <==> LowerAscii(a) == LowerAscii(b)
  {
    assert |a| == |b| && (forall i | 0 <= i < |a| :: ToLowerAscii(a[i]) == ToLowerAscii(b[i])) ==>
           LowerAscii(a) == LowerAscii(b);
    |a| == |b| && forall i | 0 <= i < |a| :: ToLowerAscii(a[i]) == ToLowerAscii(b[i])
  }
}
