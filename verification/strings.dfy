/**
 * The string helpers the dashboard leans on: JavaScript's String.prototype.trim,
 * toLowerCase (restricted to ASCII letters), and splitting a comma-separated
 * tag field into trimmed, non-blank tags.
 */
module Strings {

  /** The characters trim removes: ECMAScript WhiteSpace and LineTerminator. */
  predicate IsSpace(c: char)
  {
    var n := c as int;
    n == 0x09 || n == 0x0A || n == 0x0B || n == 0x0C || n == 0x0D || n == 0x20 ||
    n == 0xA0 || n == 0x1680 || (0x2000 <= n <= 0x200A) || n == 0x2028 ||
    n == 0x2029 || n == 0x202F || n == 0x205F || n == 0x3000 || n == 0xFEFF
  }

  /** A string made of whitespace only (the empty string included). */
  predicate IsBlank(s: string)
  {
    forall i :: 0 <= i < |s| ==> IsSpace(s[i])
  }

  /** Drops leading whitespace. */
  function TrimStart(s: string): string
  {
    if s != [] && IsSpace(s[0]) then TrimStart(s[1..]) else s
  }

  /** Drops trailing whitespace. */
  function TrimEnd(s: string): string
  {
    if s != [] && IsSpace(s[|s| - 1]) then TrimEnd(s[..|s| - 1]) else s
  }

  /** String.prototype.trim. */
  function Trim(s: string): string
  {
    TrimEnd(TrimStart(s))
  }

  /** TrimStart keeps a suffix of s, dropping only whitespace, and leaves none in front. */
  lemma {:induction false} TrimStartSpec(s: string)
    ensures |TrimStart(s)| <= |s|
    ensures TrimStart(s) == s[|s| - |TrimStart(s)|..]
    ensures forall i :: 0 <= i < |s| - |TrimStart(s)| ==> IsSpace(s[i])
    ensures TrimStart(s) == [] || !IsSpace(TrimStart(s)[0])
  {
    if s != [] && IsSpace(s[0]) {
      TrimStartSpec(s[1..]);
      assert TrimStart(s) == TrimStart(s[1..]);
    }
  }

  /** TrimEnd keeps a prefix of s, dropping only whitespace, and leaves none at the end. */
  lemma {:induction false} TrimEndSpec(s: string)
    ensures |TrimEnd(s)| <= |s|
    ensures TrimEnd(s) == s[..|TrimEnd(s)|]
    ensures forall i :: |TrimEnd(s)| <= i < |s| ==> IsSpace(s[i])
    ensures TrimEnd(s) == [] || !IsSpace(TrimEnd(s)[|TrimEnd(s)| - 1])
  {
    if s != [] && IsSpace(s[|s| - 1]) {
      TrimEndSpec(s[..|s| - 1]);
      assert TrimEnd(s) == TrimEnd(s[..|s| - 1]);
    }
  }

  /**
   * Trim keeps the infix of s that starts after the leading whitespace and ends
   * before the trailing whitespace, and that infix has whitespace at neither end.
   */
  lemma TrimSpec(s: string)
    ensures |TrimStart(s)| <= |s|
    ensures var r := Trim(s); var k := |s| - |TrimStart(s)|;
      k + |r| <= |s| && r == s[k..k + |r|] &&
      (forall i :: 0 <= i < k ==> IsSpace(s[i])) &&
      (forall i :: k + |r| <= i < |s| ==> IsSpace(s[i])) &&
      (r == [] || (!IsSpace(r[0]) && !IsSpace(r[|r| - 1])))
  {
    var t := TrimStart(s);
    TrimStartSpec(s);
    TrimEndSpec(t);
    var r := TrimEnd(t);
    var k := |s| - |t|;
    forall i | k + |r| <= i < |s| ensures IsSpace(s[i]) {
      assert s[i] == t[i - k];
    }
    if r != [] {
      assert r[0] == t[0];
    }
  }

  /** A string trims to "" exactly when it is blank. */
  lemma TrimEmptyIffBlank(s: string)
    ensures Trim(s) == [] <==> IsBlank(s)
  {
    TrimSpec(s);
    var r := Trim(s);
    var k := |s| - |TrimStart(s)|;
    if r != [] {
      assert r[0] == s[k];
    }
  }

  /** Trimming twice is trimming once. */
  lemma TrimIdempotent(s: string)
    ensures Trim(Trim(s)) == Trim(s)
  {
    var r := Trim(s);
    TrimSpec(s);
    assert TrimStart(r) == r;
  }

  function LowerChar(c: char): char
  {
    if 'A' <= c <= 'Z' then (c as int + 32) as char else c
  }

  /** toLowerCase on the ASCII letters; every other character is kept. */
  function Lower(s: string): (r: string)
    ensures |r| == |s|
  {
    seq(|s|, i requires 0 <= i < |s| => LowerChar(s[i]))
  }

  /** String.prototype.split with a one-character separator. */
  function Split(s: string, sep: char): (r: seq<string>)
    ensures |r| >= 1
    ensures forall i :: 0 <= i < |r| ==> sep !in r[i]
  {
    if s == [] then [[]]
    else
      var rest := Split(s[1..], sep);
      if s[0] == sep then [[]] + rest
      else [[s[0]] + rest[0]] + rest[1..]
  }

  /** Array.prototype.join with a one-character separator. */
  function Join(parts: seq<string>, sep: char): string
  {
    if parts == [] then []
    else if |parts| == 1 then parts[0]
    else parts[0] + [sep] + Join(parts[1..], sep)
  }

  /** Splitting loses nothing: joining the pieces back gives the original string. */
  lemma {:induction false} JoinSplit(s: string, sep: char)
    ensures Join(Split(s, sep), sep) == s
  {
    if s != [] {
      var rest := Split(s[1..], sep);
      JoinSplit(s[1..], sep);
      if s[0] == sep {
        assert Split(s, sep) == [[]] + rest;
        assert Join([[]] + rest, sep) == [] + [sep] + Join(rest, sep);
      } else if |rest| == 1 {
        assert Split(s, sep) == [[s[0]] + rest[0]];
      } else {
        var parts := [[s[0]] + rest[0]] + rest[1..];
        assert Split(s, sep) == parts;
        assert parts[1..] == rest[1..];
        assert Join(rest, sep) == rest[0] + [sep] + Join(rest[1..], sep);
      }
    }
  }

  /** The pieces, trimmed, with the blank ones dropped (map(trim).filter(Boolean)). */
  function TrimmedNonBlank(pieces: seq<string>): (r: seq<string>)
    ensures |r| <= |pieces|
  {
    if pieces == [] then []
    else
      var t := Trim(pieces[0]);
      (if t == [] then [] else [t]) + TrimmedNonBlank(pieces[1..])
  }

  /** Comma-separated tags to a tag list: split on ',', trim, drop blanks. */
  function SplitTags(text: string): (tags: seq<string>)
  {
    TrimmedNonBlank(Split(text, ','))
  }

  /** A tag as the source leaves it: non-empty, already trimmed, without the separator. */
  predicate IsCleanTag(tag: string, sep: char)
  {
    tag != [] && Trim(tag) == tag && sep !in tag
  }

  /** Trimming cannot introduce a character: it only removes characters from the ends. */
  lemma TrimKeepsOut(s: string, c: char)
    requires c !in s
    ensures c !in Trim(s)
  {
    var t := Trim(s);
    var k := |s| - |TrimStart(s)|;
    TrimSpec(s);
    forall j | 0 <= j < |t| ensures t[j] != c {
      assert t[j] == s[k + j];
    }
  }

  /** Every tag TrimmedNonBlank keeps is clean, given that no piece holds the separator. */
  lemma {:induction false} TrimmedNonBlankClean(pieces: seq<string>, sep: char)
    requires forall i :: 0 <= i < |pieces| ==> sep !in pieces[i]
    ensures forall i :: 0 <= i < |TrimmedNonBlank(pieces)| ==> IsCleanTag(TrimmedNonBlank(pieces)[i], sep)
  {
    if pieces != [] {
      var t := Trim(pieces[0]);
      var rest := TrimmedNonBlank(pieces[1..]);
      TrimmedNonBlankClean(pieces[1..], sep);
      TrimIdempotent(pieces[0]);
      TrimKeepsOut(pieces[0], sep);
      var r := (if t == [] then [] else [t]) + rest;
      assert TrimmedNonBlank(pieces) == r;
      forall i | 0 <= i < |r| ensures IsCleanTag(r[i], sep) {
        if t != [] && i > 0 {
          assert r[i] == rest[i - 1];
        }
      }
    }
  }

  /** Each tag SplitTags produces is non-empty, trimmed and comma-free. */
  lemma SplitTagsClean(text: string)
    ensures forall i :: 0 <= i < |SplitTags(text)| ==> IsCleanTag(SplitTags(text)[i], ',')
  {
    TrimmedNonBlankClean(Split(text, ','), ',');
  }

  /** Trimming and dropping blanks works piece by piece, so pieces keep their order. */
  lemma {:induction false} TrimmedNonBlankAppend(a: seq<string>, b: seq<string>)
    ensures TrimmedNonBlank(a + b) == TrimmedNonBlank(a) + TrimmedNonBlank(b)
  {
    if a == [] {
      assert a + b == b;
    } else {
      var ab := a + b;
      assert ab[0] == a[0] && ab[1..] == a[1..] + b;
      TrimmedNonBlankAppend(a[1..], b);
    }
  }

  /** Text up to the first separator is the first piece; the rest is split on its own. */
  lemma {:induction false} SplitAtSeparator(a: string, b: string, sep: char)
    requires sep !in a
    ensures Split(a + [sep] + b, sep) == [a] + Split(b, sep)
  {
    var s := a + [sep] + b;
    if a == [] {
      assert s[0] == sep && s[1..] == b;
    } else {
      assert s[0] == a[0] && s[1..] == a[1..] + [sep] + b;
      SplitAtSeparator(a[1..], b, sep);
      assert [a[0]] + a[1..] == a;
    }
  }

  /**
   * A comma splits the tag field in two: the tags are those before it followed
   * by those after it. With SplitTagsSingle this fixes the tags of every field.
   */
  lemma SplitTagsComma(a: string, b: string)
    requires ',' !in a
    ensures SplitTags(a + [','] + b) == SplitTags(a) + SplitTags(b)
  {
    SplitAtSeparator(a, b, ',');
    SplitNoSeparator(a, ',');
    TrimmedNonBlankAppend([a], Split(b, ','));
  }

  /** A blank tag field gives no tags; one without commas gives its trimmed self if not blank. */
  lemma SplitTagsSingle(text: string)
    requires ',' !in text
    ensures SplitTags(text) == if IsBlank(text) then [] else [Trim(text)]
  {
    SplitNoSeparator(text, ',');
    TrimEmptyIffBlank(text);
  }

  lemma {:induction false} SplitNoSeparator(s: string, sep: char)
    requires sep !in s
    ensures Split(s, sep) == [s]
  {
    if s != [] {
      SplitNoSeparator(s[1..], sep);
      assert [s[0]] + s[1..] == s;
    }
  }
}
