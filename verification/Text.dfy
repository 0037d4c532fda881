/** Values shared by every component: an optional value and a call that may raise. */
module Wrappers {
  datatype Option<+T> = None | Some(value: T)

  datatype Result<+T, +E> = Ok(value: T) | Err(error: E)
}

/** Python's string helpers as the shared libraries use them: whitespace
    stripping and splitting on one character. */
module Text {
  import opened Wrappers

  /** The characters for which Python's str.isspace holds. */
  predicate IsSpace(c: char) {
    var n := c as int;
    || 0x09 <= n <= 0x0D || 0x1C <= n <= 0x20 || n == 0x85 || n == 0xA0 || n == 0x1680
    || 0x2000 <= n <= 0x200A || n == 0x2028 || n == 0x2029 || n == 0x202F || n == 0x205F
    || n == 0x3000
  }

  /** One by one: the five controls from the tab on, the four separators and the blank,
      and nineteen beyond ASCII. */
  lemma SpacesExactly(c: char)
    ensures IsSpace(c)
        <==> c as int in {9, 10, 11, 12, 13, 28, 29, 30, 31, 32, 133, 160, 5760,
                          8192, 8193, 8194, 8195, 8196, 8197, 8198, 8199, 8200, 8201, 8202,
                          8232, 8233, 8239, 8287, 12288}
  {
  }

  predicate HasSpace(s: string) {
    exists i :: 0 <= i < |s| && IsSpace(s[i])
  }

  function StripLeft(s: string): string {
    if s != [] && IsSpace(s[0]) then StripLeft(s[1..]) else s
  }

  function StripRight(s: string): string {
    if s != [] && IsSpace(s[|s| - 1]) then StripRight(s[..|s| - 1]) else s
  }

  function Strip(s: string): string {
    StripRight(StripLeft(s))
  }

  lemma StripKeeps(s: string)
    requires !HasSpace(s)
    ensures Strip(s) == s
  {
  }

  predicate AllSpace(s: string) {
    forall i :: 0 <= i < |s| ==> IsSpace(s[i])
  }

  /** Neither the first nor the last character is a space. */
  predicate Trimmed(s: string) {
    s == [] || (!IsSpace(s[0]) && !IsSpace(s[|s| - 1]))
  }

  lemma {:induction false} StripLeftTrims(s: string) returns (before: string)
    ensures s == before + StripLeft(s) && AllSpace(before)
    ensures StripLeft(s) == [] || !IsSpace(StripLeft(s)[0])
  {
    if s != [] && IsSpace(s[0]) {
      var rest := StripLeftTrims(s[1..]);
      before := [s[0]] + rest;
      assert s == [s[0]] + s[1..];
    } else {
      before := [];
    }
  }

  lemma {:induction false} StripRightTrims(s: string) returns (after: string)
    ensures s == StripRight(s) + after && AllSpace(after)
    ensures StripRight(s) == [] || !IsSpace(StripRight(s)[|StripRight(s)| - 1])
  {
    if s != [] && IsSpace(s[|s| - 1]) {
      var init, last := s[..|s| - 1], s[|s| - 1];
      var rest := StripRightTrims(init);
      after := rest + [last];
      assert s == init + [last] == (StripRight(init) + rest) + [last] == StripRight(init) + after;
    } else {
      after := [];
    }
  }

  /** Stripping takes spaces off both ends, nothing else and no fewer. */
  lemma StripTrims(s: string) returns (before: string, after: string)
    ensures s == before + Strip(s) + after
    ensures AllSpace(before) && AllSpace(after) && Trimmed(Strip(s))
  {
    before := StripLeftTrims(s);
    after := StripRightTrims(StripLeft(s));
    var middle := StripLeft(s);
    assert Strip(s) != [] ==> Strip(s)[0] == middle[0];
  }

  /** Something is left exactly of a string that is not all spaces. */
  lemma StripEmptyExactly(s: string)
    ensures Strip(s) == [] <==> AllSpace(s)
  {
    var before, after := StripTrims(s);
    if Strip(s) != [] {
      assert s[|before|] == Strip(s)[0];
    }
  }

  /** str.split(sep) for a one-character separator. */
  function Split(s: string, sep: char): (parts: seq<string>)
    ensures |parts| >= 1
  {
    if s == [] then [[]]
    else
      var rest := Split(s[1..], sep);
      if s[0] == sep then [[]] + rest else [[s[0]] + rest[0]] + rest[1..]
  }

  /** sep.join(parts) for at least one part. */
  function Join(parts: seq<string>, sep: char): string
    requires |parts| >= 1
  {
    if |parts| == 1 then parts[0] else parts[0] + [sep] + Join(parts[1..], sep)
  }

  /** Splitting cuts at every separator and loses nothing. */
  lemma {:induction false} SplitJoins(s: string, sep: char)
    ensures Join(Split(s, sep), sep) == s
    ensures forall i :: 0 <= i < |Split(s, sep)| ==> sep !in Split(s, sep)[i]
  {
    if s != [] {
      SplitJoins(s[1..], sep);
      var parts, rest := Split(s, sep), Split(s[1..], sep);
      assert s == [s[0]] + s[1..];
      if s[0] == sep {
        assert parts[1..] == rest;
      } else {
        assert parts[1..] == rest[1..];
      }
    }
  }

  /** Two strings are equal exactly when they split alike. */
  lemma SplitInjective(a: string, b: string, sep: char)
    requires Split(a, sep) == Split(b, sep)
    ensures a == b
  {
    SplitJoins(a, sep);
    SplitJoins(b, sep);
  }

  lemma {:induction false} SplitClean(s: string, sep: char)
    requires sep !in s
    ensures Split(s, sep) == [s]
  {
    if s != [] {
      SplitClean(s[1..], sep);
      assert [s[0]] + s[1..] == s;
    }
  }

  lemma {:induction false} SplitAfter(head: string, tail: string, sep: char)
    requires sep !in head
    ensures Split(head + [sep] + tail, sep) == [head] + Split(tail, sep)
  {
    var s := head + [sep] + tail;
    if head == [] {
      assert s[1..] == tail;
    } else {
      SplitAfter(head[1..], tail, sep);
      assert s[1..] == head[1..] + [sep] + tail;
      assert [head[0]] + head[1..] == head;
    }
  }

  predicate IsLower(c: char) { 'a' <= c <= 'z' }
  predicate IsDigit(c: char) { '0' <= c <= '9' }
  predicate IsAlnum(c: char) { IsLower(c) || 'A' <= c <= 'Z' || IsDigit(c) }

  /** TENANT_ID_PATTERN of libs/shared/tenant.py. */
  predicate MatchesTenantPattern(s: string) {
    && 1 <= |s| <= 64
    && IsAlnum(s[0])
    && forall i :: 1 <= i < |s| ==> IsAlnum(s[i]) || s[i] in "._:-"
  }

  /** _validated_tenant_id: strip, then match the pattern or raise. */
  function ValidatedTenantId(raw: string): Option<string> {
    var stripped := Strip(raw);
    if MatchesTenantPattern(stripped) then Some(stripped) else None
  }

  /** A tenant id has 1 to 64 letters and digits; dots, underscores, colons and hyphens may
      follow the first character. */
  lemma TenantIdExactly(first: char, rest: string)
    ensures ValidatedTenantId([first] + rest) == Some([first] + rest)
        <==> (|rest| <= 63 && !IsSpace(first) && IsAlnum(first)
              && forall c :: c in rest ==> IsAlnum(c) || c == '.' || c == '_' || c == ':' || c == '-')
  {
    var id := [first] + rest;
    if MatchesTenantPattern(id) {
      forall c | c in rest ensures IsAlnum(c) || c in "._:-" {
        var i :| 0 <= i < |rest| && rest[i] == c;
        assert id[i + 1] == c;
      }
    }
    if |rest| <= 63 && IsAlnum(first) && forall c :: c in rest ==> IsAlnum(c) || c == '.' || c == '_' || c == ':' || c == '-' {
      forall i | 1 <= i < |id| ensures IsAlnum(id[i]) || id[i] in "._:-" {
        assert id[i] == rest[i - 1] && id[i] in rest;
      }
      assert !HasSpace(id);
      StripKeeps(id);
    }
  }
}
