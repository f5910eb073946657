/** Percent-decoding as `urllib.parse.unquote` does it, and percent-encoded layers. */
module Percent {
  import opened Numerals
  import opened Text

  /** Decodes a run of bytes above 127 as UTF-8 with replacement; its result is left open. */
  type Utf8 = seq<nat> -> string

  predicate IsHexDigit(c: char) {
    DigitValue(LowerChar(c)) < 16
  }

  predicate IsEscape(s: string) {
    |s| >= 3 && s[0] == '%' && IsHexDigit(s[1]) && IsHexDigit(s[2])
  }

  function EscapedByte(s: string): (b: nat)
    requires IsEscape(s)
    ensures b < 256
  {
    DigitValue(LowerChar(s[1])) * 16 + DigitValue(LowerChar(s[2]))
  }

  function Flush(pending: seq<nat>, utf8: Utf8): string {
    if pending == [] then "" else utf8(pending)
  }

  /** Decodes `s`, with the non-ASCII bytes read so far still to be decoded together. */
  function UnquoteFrom(s: string, pending: seq<nat>, utf8: Utf8): string {
    if s == "" then Flush(pending, utf8)
    else if !IsEscape(s) then Flush(pending, utf8) + [s[0]] + UnquoteFrom(s[1..], [], utf8)
    else if EscapedByte(s) < 128 then
      Flush(pending, utf8) + [EscapedByte(s) as char] + UnquoteFrom(s[3..], [], utf8)
    else UnquoteFrom(s[3..], pending + [EscapedByte(s)], utf8)
  }

  /** `unquote(s)`. */
  function Unquote(s: string, utf8: Utf8): string {
    UnquoteFrom(s, [], utf8)
  }

  /** `e` is `s` with some characters, and every percent sign, replaced by their escapes. */
  predicate IsLayer(e: string, s: string) {
    if s == "" then e == ""
    else
      || (e != "" && e[0] == s[0] && s[0] != '%' && IsLayer(e[1..], s[1..]))
      || (IsEscape(e) && EscapedByte(e) == s[0] as int && IsLayer(e[3..], s[1..]))
  }

  /** `e` is `s` inside `layers` such encodings. */
  ghost predicate IsWrapped(e: string, s: string, layers: nat)
    decreases layers
  {
    if layers == 0 then e == s
    else exists inner :: IsLayer(e, inner) && IsWrapped(inner, s, layers - 1)
  }

  /** Decoding undoes one layer, whichever characters it escaped and in whichever digit case. */
  lemma {:induction false} UnquoteUndoesLayer(e: string, s: string, utf8: Utf8)
    requires IsLayer(e, s) && IsAscii(s)
    ensures Unquote(e, utf8) == s
  {
    if s != "" {
      assert s == [s[0]] + s[1..];
      if IsEscape(e) && EscapedByte(e) == s[0] as int && IsLayer(e[3..], s[1..]) {
        UnquoteUndoesLayer(e[3..], s[1..], utf8);
      } else {
        UnquoteUndoesLayer(e[1..], s[1..], utf8);
      }
    }
  }

  /** Text without percent signs is a layer of itself. */
  lemma {:induction false} PlainIsLayer(s: string)
    requires Excludes(s, '%')
    ensures IsLayer(s, s)
  {
    if s != "" {
      PlainIsLayer(s[1..]);
    }
  }

  /** Decoding leaves it alone. */
  lemma {:induction false} UnquotePlain(s: string, utf8: Utf8)
    requires Excludes(s, '%')
    ensures Unquote(s, utf8) == s
  {
    if s != "" {
      UnquotePlain(s[1..], utf8);
      assert s == [s[0]] + s[1..];
    }
  }

  /** A percent sign with two hex digits behind it, in either case. */
  predicate HasEscapeAt(s: string, i: nat) {
    i + 2 < |s| && s[i] == '%' && s[i + 1] in "0123456789abcdefABCDEF" && s[i + 2] in "0123456789abcdefABCDEF"
  }

  lemma HexDigitsExactly(c: char)
    ensures IsHexDigit(c) <==> c in "0123456789abcdefABCDEF"
  {
    var all := "0123456789abcdefABCDEF";
    if '0' <= c <= '9' {
      assert all[c as int - '0' as int] == c;
    } else if 'a' <= c <= 'f' {
      assert all[c as int - 'a' as int + 10] == c;
    } else if 'A' <= c <= 'F' {
      assert all[c as int - 'A' as int + 16] == c;
    }
  }

  /** A percent sign that starts no escape stays, and so does everything else that is in none. */
  lemma {:induction false} StrayPercentStays(s: string, utf8: Utf8)
    requires forall i: nat :: !HasEscapeAt(s, i)
    ensures Unquote(s, utf8) == s
  {
    if s != "" {
      if |s| >= 3 {
        HexDigitsExactly(s[1]);
        HexDigitsExactly(s[2]);
      }
      assert !HasEscapeAt(s, 0);
      forall i: nat ensures !HasEscapeAt(s[1..], i) {
        assert !HasEscapeAt(s, i + 1);
      }
      StrayPercentStays(s[1..], utf8);
      assert s == [s[0]] + s[1..];
    }
  }

  /** A byte's escape, in lower case. */
  function EscapeOf(b: nat): (e: string)
    requires b < 256
    ensures |e| == 3 && IsEscape(e) && EscapedByte(e) == b
  {
    DigitOf(b / 16);
    DigitOf(b % 16);
    ['%', DIGITS[b / 16], DIGITS[b % 16]]
  }

  /** The escapes of some bytes. */
  function Escapes(bytes: seq<nat>): string
    requires forall i :: 0 <= i < |bytes| ==> bytes[i] < 256
  {
    if bytes == [] then "" else EscapeOf(bytes[0]) + Escapes(bytes[1..])
  }

  lemma EscapeInFront(escape: string, tail: string)
    requires |escape| == 3 && IsEscape(escape)
    ensures var e := escape + tail; IsEscape(e) && EscapedByte(e) == EscapedByte(escape) && e[3..] == tail
  {
  }

  lemma FlushedFirst(rest: string, pending: seq<nat>, utf8: Utf8)
    requires !IsEscape(rest) && pending != []
    ensures UnquoteFrom(rest, pending, utf8) == utf8(pending) + Unquote(rest, utf8)
  {
    if rest == "" {
      assert utf8(pending) + "" == utf8(pending);
    } else {
      var more := UnquoteFrom(rest[1..], [], utf8);
      assert "" + [rest[0]] + more == [rest[0]] + more;
      assert utf8(pending) + [rest[0]] + more == utf8(pending) + ([rest[0]] + more);
    }
  }

  lemma Associate(a: string, b: string, c: string)
    ensures a + b + c == a + (b + c)
  {
  }

  lemma ByteIsKept(b: nat, tail: string, pending: seq<nat>, utf8: Utf8)
    requires 128 <= b < 256
    ensures UnquoteFrom(EscapeOf(b) + tail, pending, utf8) == UnquoteFrom(tail, pending + [b], utf8)
  {
    EscapeInFront(EscapeOf(b), tail);
  }

  lemma OneFewer(bytes: seq<nat>, pending: seq<nat>)
    requires bytes != []
    ensures pending + bytes == pending + [bytes[0]] + bytes[1..]
  {
  }

  lemma {:induction false} BytesGather(bytes: seq<nat>, rest: string, pending: seq<nat>, utf8: Utf8)
    requires forall i :: 0 <= i < |bytes| ==> 128 <= bytes[i] < 256
    ensures UnquoteFrom(Escapes(bytes) + rest, pending, utf8) == UnquoteFrom(rest, pending + bytes, utf8)
  {
    if bytes == [] {
      assert Escapes(bytes) + rest == rest && pending + bytes == pending;
    } else {
      Associate(EscapeOf(bytes[0]), Escapes(bytes[1..]), rest);
      ByteIsKept(bytes[0], Escapes(bytes[1..]) + rest, pending, utf8);
      BytesGather(bytes[1..], rest, pending + [bytes[0]], utf8);
      OneFewer(bytes, pending);
    }
  }

  /** Escaped bytes above 127 are decoded together, as long as they follow one another. */
  lemma BytesDecodeTogether(bytes: seq<nat>, rest: string, utf8: Utf8)
    requires bytes != [] && forall i :: 0 <= i < |bytes| ==> 128 <= bytes[i] < 256
    requires !IsEscape(rest)
    ensures Unquote(Escapes(bytes) + rest, utf8) == utf8(bytes) + Unquote(rest, utf8)
  {
    BytesGather(bytes, rest, [], utf8);
    assert [] + bytes == bytes;
    FlushedFirst(rest, bytes, utf8);
  }

  lemma {:induction false} LayerIsAscii(e: string, s: string)
    requires IsLayer(e, s) && IsAscii(s)
    ensures IsAscii(e)
  {
    if s != "" {
      if IsEscape(e) && EscapedByte(e) == s[0] as int && IsLayer(e[3..], s[1..]) {
        LayerIsAscii(e[3..], s[1..]);
        assert e == [e[0], e[1], e[2]] + e[3..];
      } else {
        LayerIsAscii(e[1..], s[1..]);
        assert e == [e[0]] + e[1..];
      }
    }
  }

  /** `unquote` applied `rounds` times. */
  function Decoded(s: string, rounds: nat, utf8: Utf8): string
    decreases rounds
  {
    if rounds == 0 then s else Decoded(Unquote(s, utf8), rounds - 1, utf8)
  }

  lemma {:induction false} FixpointStays(s: string, rounds: nat, utf8: Utf8)
    requires Unquote(s, utf8) == s
    ensures Decoded(s, rounds, utf8) == s
    decreases rounds
  {
    if rounds > 0 {
      FixpointStays(s, rounds - 1, utf8);
    }
  }

  lemma {:induction false} WrappedIsAscii(e: string, s: string, layers: nat)
    requires IsWrapped(e, s, layers) && IsAscii(s)
    ensures IsAscii(e)
    decreases layers
  {
    if layers > 0 {
      var inner :| IsLayer(e, inner) && IsWrapped(inner, s, layers - 1);
      WrappedIsAscii(inner, s, layers - 1);
      LayerIsAscii(e, inner);
    }
  }

  /** Enough rounds of decoding unwrap any number of layers down to text without percent signs. */
  lemma {:induction false} DecodingUnwraps(e: string, s: string, layers: nat, rounds: nat, utf8: Utf8)
    requires IsWrapped(e, s, layers) && layers <= rounds
    requires IsAscii(s) && Excludes(s, '%')
    ensures Decoded(e, rounds, utf8) == s
    decreases layers
  {
    if layers == 0 {
      UnquotePlain(s, utf8);
      FixpointStays(s, rounds, utf8);
    } else {
      var inner :| IsLayer(e, inner) && IsWrapped(inner, s, layers - 1);
      WrappedIsAscii(inner, s, layers - 1);
      UnquoteUndoesLayer(e, inner, utf8);
      DecodingUnwraps(inner, s, layers - 1, rounds - 1, utf8);
    }
  }
}
