/** The string operations of the Python standard library that the worker's parsers rely on. */
module Text {
  import opened Options

  predicate IsAscii(s: string) {
    forall i :: 0 <= i < |s| ==> s[i] as int < 128
  }

  function LowerChar(c: char): (r: char) {
    if 'A' <= c <= 'Z' then (c as int + 32) as char else c
  }

  /** `str.lower()` on the ASCII letters; every other character is left alone. */
  function Lower(s: string): (r: string)
    ensures |r| == |s|
    ensures forall i :: 0 <= i < |s| ==> r[i] == LowerChar(s[i])
  {
    seq(|s|, i requires 0 <= i < |s| => LowerChar(s[i]))
  }

  lemma LowerConcat(s: string, t: string)
    ensures Lower(s + t) == Lower(s) + Lower(t)
  {
  }

  predicate Excludes(s: string, c: char) {
    forall i :: 0 <= i < |s| ==> s[i] != c
  }

  /** `s.split(sep)`. */
  function Split(s: string, sep: char): (parts: seq<string>)
    ensures |parts| >= 1
    ensures forall i :: 0 <= i < |parts| ==> Excludes(parts[i], sep)
  {
    if s == "" then [""]
    else
      var rest := Split(s[1..], sep);
      if s[0] == sep then [""] + rest
      else [[s[0]] + rest[0]] + rest[1..]
  }

  /** `sep.join(parts)`. */
  function Join(parts: seq<string>, sep: string): string
    requires |parts| >= 1
  {
    if |parts| == 1 then parts[0] else parts[0] + sep + Join(parts[1..], sep)
  }

  /** The first part may grow at its front; so does the joined text. */
  lemma JoinPrepend(text: string, parts: seq<string>, sep: string)
    requires |parts| >= 1
    ensures Join([text + parts[0]] + parts[1..], sep) == text + Join(parts, sep)
  {
    var grown := [text + parts[0]] + parts[1..];
    assert grown[1..] == parts[1..];
    if |parts| > 1 {
      var rest := Join(parts[1..], sep);
      assert text + (parts[0] + sep + rest) == text + parts[0] + sep + rest;
    }
  }

  lemma JoinEmptyFirst(parts: seq<string>, sep: string)
    requires |parts| >= 1
    ensures Join([""] + parts, sep) == sep + Join(parts, sep)
  {
    assert ([""] + parts)[1..] == parts;
    assert "" + sep == sep;
  }

  lemma {:induction false} JoinSplit(s: string, sep: char)
    ensures Join(Split(s, sep), [sep]) == s
  {
    if s != "" {
      JoinSplit(s[1..], sep);
      assert s == [s[0]] + s[1..];
      if s[0] == sep {
        JoinEmptyFirst(Split(s[1..], sep), [sep]);
      } else {
        JoinPrepend([s[0]], Split(s[1..], sep), [sep]);
      }
    }
  }

  lemma {:induction false} SplitWord(word: string, sep: char)
    requires Excludes(word, sep)
    ensures Split(word, sep) == [word]
  {
    if word != "" {
      SplitWord(word[1..], sep);
      assert word == [word[0]] + word[1..];
    }
  }

  lemma {:induction false} SplitHead(word: string, rest: string, sep: char)
    requires Excludes(word, sep)
    ensures Split(word + [sep] + rest, sep) == [word] + Split(rest, sep)
  {
    var s := word + [sep] + rest;
    if word == "" {
      assert s[1..] == rest;
    } else {
      assert s[1..] == word[1..] + [sep] + rest;
      SplitHead(word[1..], rest, sep);
      assert word == [word[0]] + word[1..];
    }
  }

  lemma {:induction false} SplitJoin(parts: seq<string>, sep: char)
    requires |parts| >= 1
    requires forall i :: 0 <= i < |parts| ==> Excludes(parts[i], sep)
    ensures Split(Join(parts, [sep]), sep) == parts
  {
    if |parts| == 1 {
      SplitWord(parts[0], sep);
    } else {
      SplitJoin(parts[1..], sep);
      SplitHead(parts[0], Join(parts[1..], [sep]), sep);
    }
  }

  /** `s.rstrip(c)`. */
  function StripTrailing(s: string, c: char): (r: string)
    ensures |r| <= |s| && r == s[..|r|]
    ensures r == "" || r[|r| - 1] != c
    ensures forall i :: |r| <= i < |s| ==> s[i] == c
  {
    if s != "" && s[|s| - 1] == c then StripTrailing(s[..|s| - 1], c) else s
  }

  predicate EndsWith(s: string, tail: string) {
    |tail| <= |s| && s[|s| - |tail|..] == tail
  }

  /** What `str.strip()` removes: the control characters TAB to CR and FS to US, and the Unicode spaces. */
  predicate IsSpace(c: char)
    ensures IsSpace(c) <==>
              c as int in {
                9, 10, 11, 12, 13, 28, 29, 30, 31, 32, 133, 160, 5760, 8192, 8193, 8194, 8195, 8196, 8197, 8198,
                8199, 8200, 8201, 8202, 8232, 8233, 8239, 8287, 12288}
  {
    var code := c as int;
    || 0x9 <= code <= 0xd || 0x1c <= code <= 0x20 || code == 0x85 || code == 0xa0 || code == 0x1680
    || 0x2000 <= code <= 0x200a || code == 0x2028 || code == 0x2029 || code == 0x202f || code == 0x205f || code == 0x3000
  }

  predicate IsBlank(s: string) {
    forall i :: 0 <= i < |s| ==> IsSpace(s[i])
  }

  /** `s.strip()`. */
  function Strip(s: string): (r: string)
    ensures r == "" || (!IsSpace(r[0]) && !IsSpace(r[|r| - 1]))
    ensures r == "" <==> IsBlank(s)
    decreases |s|
  {
    if s != "" && IsSpace(s[0]) then Strip(s[1..])
    else if s != "" && IsSpace(s[|s| - 1]) then Strip(s[..|s| - 1])
    else s
  }

  /** `s[:limit]`. */
  function Clip(s: string, limit: nat): (r: string)
    ensures r <= s && |r| == if |s| <= limit then |s| else limit
  {
    if |s| <= limit then s else s[..limit]
  }

  predicate Contains(s: string, part: string) {
    part <= s || (s != "" && Contains(s[1..], part))
  }

  lemma {:induction false} ContainsBehind(a: string, s: string, part: string)
    requires part <= s
    ensures Contains(a + s, part)
  {
    if a == "" {
      assert a + s == s;
    } else {
      ContainsBehind(a[1..], s, part);
      assert (a + s)[1..] == a[1..] + s;
    }
  }

  predicate StandsAt(part: string, s: string, i: nat) {
    i + |part| <= |s| && s[i..i + |part|] == part
  }

  lemma StandsLater(part: string, s: string, i: nat)
    requires s != ""
    ensures StandsAt(part, s[1..], i) <==> StandsAt(part, s, i + 1)
  {
    if i + 1 + |part| <= |s| {
      assert s[1..][i..i + |part|] == s[i + 1..i + 1 + |part|];
    }
  }

  /** `part in s`: the part stands somewhere in s. */
  lemma {:induction false} ContainsExactly(s: string, part: string)
    ensures Contains(s, part) <==> exists i: nat :: StandsAt(part, s, i)
  {
    if Contains(s, part) {
      var i := PlaceOf(s, part);
    }
    forall i: nat | StandsAt(part, s, i) ensures Contains(s, part) {
      assert s == s[..i] + s[i..] && part <= s[i..];
      ContainsBehind(s[..i], s[i..], part);
    }
  }

  lemma {:induction false} PlaceOf(s: string, part: string) returns (i: nat)
    requires Contains(s, part)
    ensures StandsAt(part, s, i)
  {
    if part <= s {
      i := 0;
    } else {
      var k := PlaceOf(s[1..], part);
      i := k + 1;
      StandsLater(part, s, k);
    }
  }

  /** Apart from case, this text stands somewhere in the message. */
  ghost predicate Mentions(message: string, text: string) {
    exists i: nat :: StandsAt(text, Lower(message), i)
  }

  /** r is what is left of s between i and j, and all around it is white space. */
  predicate Trims(r: string, s: string, i: nat, j: nat) {
    i <= j <= |s| && r == s[i..j] && IsBlank(s[..i]) && IsBlank(s[j..])
  }

  lemma TrimsMoreFront(r: string, c: char, s: string, i: nat, j: nat)
    requires Trims(r, s, i, j) && IsSpace(c)
    ensures Trims(r, [c] + s, i + 1, j + 1)
  {
    var t := [c] + s;
    assert t[i + 1..j + 1] == s[i..j] && t[..i + 1] == [c] + s[..i] && t[j + 1..] == s[j..];
  }

  lemma TrimsMoreBack(r: string, s: string, c: char, i: nat, j: nat)
    requires Trims(r, s, i, j) && IsSpace(c)
    ensures Trims(r, s + [c], i, j)
  {
    var t := s + [c];
    assert t[i..j] == s[i..j] && t[..i] == s[..i] && t[j..] == s[j..] + [c];
  }

  /** What `strip()` takes off is white space, at both ends. */
  lemma {:induction false} StripTakesSpace(s: string) returns (i: nat, j: nat)
    ensures Trims(Strip(s), s, i, j)
    decreases |s|
  {
    if s != "" && IsSpace(s[0]) {
      i, j := StripTakesSpace(s[1..]);
      TrimsMoreFront(Strip(s[1..]), s[0], s[1..], i, j);
      assert s == [s[0]] + s[1..];
      i, j := i + 1, j + 1;
    } else if s != "" && IsSpace(s[|s| - 1]) {
      var front := s[..|s| - 1];
      i, j := StripTakesSpace(front);
      TrimsMoreBack(Strip(front), front, s[|s| - 1], i, j);
      assert s == front + [s[|s| - 1]];
    } else {
      i, j := 0, |s|;
    }
  }

  lemma {:induction false} StripFront(space: string, s: string)
    requires IsBlank(space)
    ensures Strip(space + s) == Strip(s)
  {
    if space == "" {
      assert space + s == s;
    } else {
      StripFront(space[1..], s);
      assert (space + s)[1..] == space[1..] + s;
    }
  }

  lemma {:induction false} StripBack(word: string, space: string)
    requires IsBlank(space) && word != "" && !IsSpace(word[0]) && !IsSpace(word[|word| - 1])
    ensures Strip(word + space) == word
  {
    var s := word + space;
    if space == "" {
      assert s == word;
    } else {
      StripBack(word, space[..|space| - 1]);
      assert s[..|s| - 1] == word + space[..|space| - 1];
    }
  }

  /** White space around a word comes off, and the word does not. */
  lemma StripPadded(before: string, word: string, after: string)
    requires IsBlank(before) && IsBlank(after) && word != "" && !IsSpace(word[0]) && !IsSpace(word[|word| - 1])
    ensures Strip(before + (word + after)) == word
  {
    StripFront(before, word + after);
    StripBack(word, after);
  }

  /** Text contains no part with a character it does not have. */
  lemma {:induction false} ContainsNothingNew(s: string, part: string, c: char)
    requires Excludes(s, c) && c in part
    ensures !Contains(s, part)
  {
    if s != "" {
      ContainsNothingNew(s[1..], part, c);
    }
  }

  /** What ends a line for `str.splitlines()`: all vertical white space. */
  predicate IsLineBreak(c: char)
    ensures IsLineBreak(c) <==> c as int in {10, 11, 12, 13, 28, 29, 30, 133, 8232, 8233}
  {
    var code := c as int;
    0xa <= code <= 0xd || 0x1c <= code <= 0x1e || code == 0x85 || code == 0x2028 || code == 0x2029
  }

  function LineLength(s: string): (n: nat)
    ensures n <= |s|
    ensures forall i :: 0 <= i < n ==> !IsLineBreak(s[i])
    ensures n < |s| ==> IsLineBreak(s[n])
  {
    if s == "" || IsLineBreak(s[0]) then 0 else 1 + LineLength(s[1..])
  }

  /** `s.splitlines()[0]`, which raises IndexError on empty text. */
  function FirstLine(s: string): (line: Option<string>)
    ensures line.None? <==> s == ""
    ensures line.Some? ==> line.value <= s && forall i :: 0 <= i < |line.value| ==> !IsLineBreak(line.value[i])
    ensures line.Some? && |line.value| < |s| ==> IsLineBreak(s[|line.value|])
  {
    if s == "" then None else Some(s[..LineLength(s)])
  }
}
