/** Trimming, identifiers and composite keys. */
module Text {

  /** White space to Go's `strings.TrimSpace`. */
  predicate GoSpace(c: char) {
    || c in "\t\n\U{000B}\U{000C}\r \U{0085}\U{00A0}\U{1680}\U{2028}\U{2029}\U{202F}\U{205F}\U{3000}"
    || '\U{2000}' <= c <= '\U{200A}'
  }

  /** White space to ECMAScript's `String.prototype.trim`. */
  predicate JsSpace(c: char) {
    || c in "\t\n\U{000B}\U{000C}\r \U{00A0}\U{1680}\U{2028}\U{2029}\U{202F}\U{205F}\U{3000}\U{FEFF}"
    || '\U{2000}' <= c <= '\U{200A}'
  }

  /** `s` neither starts nor ends with white space. */
  predicate Trimmed(s: string, blank: char -> bool) {
    s != "" ==> !blank(s[0]) && !blank(s[|s| - 1])
  }

  function Trim(s: string, blank: char -> bool): (t: string)
    ensures Trimmed(t, blank)
    ensures Trimmed(s, blank) ==> t == s
    decreases |s|
  {
    if s == "" then s
    else if blank(s[0]) then Trim(s[1..], blank)
    else if blank(s[|s| - 1]) then Trim(s[..|s| - 1], blank)
    else s
  }

  /** Trimming removes blanks at the ends and nothing else. */
  lemma {:induction false} TrimRemovesBlanks(s: string, blank: char -> bool) returns (before: string, after: string)
    ensures s == before + Trim(s, blank) + after
    ensures (forall c :: c in before ==> blank(c)) && (forall c :: c in after ==> blank(c))
    decreases |s|
  {
    before, after := "", "";
    if s != "" && blank(s[0]) {
      var left, right := TrimRemovesBlanks(s[1..], blank);
      before, after := [s[0]] + left, right;
      assert s == [s[0]] + s[1..];
    } else if s != "" && blank(s[|s| - 1]) {
      var n := |s| - 1;
      var left, right := TrimRemovesBlanks(s[..n], blank);
      before, after := left, right + [s[n]];
      assert s == s[..n] + [s[n]];
    }
  }

  /** The two notions of white space differ on two characters: next line, and the byte order mark. */
  lemma SpacesDiffer(c: char)
    ensures GoSpace(c) != JsSpace(c) <==> c == '\U{0085}' || c == '\U{FEFF}'
    ensures c < '\U{0080}' ==> (GoSpace(c) <==> '\t' <= c <= '\r' || c == ' ')
  {
  }

  function TrimSpace(s: string): (t: string)
    ensures Trimmed(t, GoSpace)
    ensures Trimmed(s, GoSpace) ==> t == s
  {
    Trim(s, GoSpace)
  }

  predicate Letter(c: char) {
    'A' <= c <= 'Z' || 'a' <= c <= 'z'
  }

  /** A text that starts and ends with a letter. */
  lemma WordIsTrimmed(s: string)
    requires s != "" && Letter(s[0]) && Letter(s[|s| - 1])
    ensures TrimSpace(s) == s
  {
    LetterIsNoSpace(s[0]);
    LetterIsNoSpace(s[|s| - 1]);
  }

  lemma LetterIsNoSpace(c: char)
    requires Letter(c)
    ensures !GoSpace(c)
  {
  }

  predicate IdentifierChar(c: char) {
    Letter(c) || '0' <= c <= '9' || c == '_'
  }

  /** A letter followed by letters, digits and underscores. */
  predicate Identifier(s: string) {
    && s != ""
    && Letter(s[0])
    && (forall c :: c in s ==> IdentifierChar(c))
  }

  /** An identifier starts as a letter and may grow by letters, digits and underscores, and by nothing else. */
  lemma IdentifierGrows(s: string, c: char)
    ensures Identifier([c]) <==> 'a' <= c <= 'z' || 'A' <= c <= 'Z'
    ensures s != "" ==>
              (Identifier(s + [c]) <==>
               Identifier(s) && ('a' <= c <= 'z' || 'A' <= c <= 'Z' || '0' <= c <= '9' || c == '_'))
    ensures !Identifier("")
  {
    assert [c][0] == c && forall d :: d in [c] <==> d == c;
    if s != "" {
      var t := s + [c];
      assert t[0] == s[0] && forall d :: d in t <==> d in s || d == c;
      if Identifier(t) {
        assert c in t && IdentifierChar(c);
        forall d | d in s
          ensures IdentifierChar(d)
        {
          assert d in t;
        }
      }
    }
  }

  /** Two parts joined by a separator: the shape of the cache key and of the Redis key. */
  function Join(first: string, separator: char, second: string): string {
    first + [separator] + second
  }

  /** A key whose parts do not hold the separator is the key of no other pair. */
  lemma {:induction false} JoinDetermines(a: string, b: string, separator: char, c: string, d: string)
    requires separator !in a && separator !in b
    ensures Join(a, separator, b) == Join(c, separator, d) <==> a == c && b == d
  {
    var left, right := Join(a, separator, b), Join(c, separator, d);
    if a != "" && c != "" {
      JoinDetermines(a[1..], b, separator, c[1..], d);
      assert left[1..] == Join(a[1..], separator, b) && right[1..] == Join(c[1..], separator, d);
      assert a == [a[0]] + a[1..] && c == [c[0]] + c[1..];
      assert left == [a[0]] + left[1..] && right == [c[0]] + right[1..];
    } else {
      assert left[|a|] == separator && right[|c|] == separator;
      assert left[|a| + 1..] == b && right[|c| + 1..] == d;
      assert forall i :: 0 <= i < |a| ==> left[i] == a[i];
      assert forall i :: 0 <= i < |b| ==> left[|a| + 1 + i] == b[i];
    }
  }

  /** A further separator gives the key to another pair as well. */
  lemma JoinSplitsTwice(a: string, b: string, separator: char) returns (c: string, d: string)
    requires separator in a || separator in b
    ensures c != a && Join(c, separator, d) == Join(a, separator, b)
  {
    var key := Join(a, separator, b);
    if i :| 0 <= i < |a| && a[i] == separator {
      c, d := a[..i], a[i + 1..] + [separator] + b;
      assert a == c + [separator] + a[i + 1..];
    } else {
      var i :| 0 <= i < |b| && b[i] == separator;
      c, d := a + [separator] + b[..i], b[i + 1..];
      assert b == b[..i] + [separator] + d;
    }
    assert Join(c, separator, d) == key;
  }
}
