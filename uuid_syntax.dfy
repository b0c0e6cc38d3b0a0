/** What PostgreSQL accepts as text input for a `uuid` column (section 8.12 of the PostgreSQL
    manual, "UUID Type"): 32 hexadecimal digits in either case, optionally enclosed in braces,
    with at most one hyphen after each group of four digits but the last. Any other text
    raises `invalid_text_representation` (SQLSTATE 22P02) before the statement looks at a
    single row. */
module UuidSyntax {
  import opened Common

  predicate IsHexDigit(c: char) {
    '0' <= c <= '9' || 'a' <= c <= 'f' || 'A' <= c <= 'F'
  }

  /** The four hex digits from `pos` on: two bytes. */
  predicate HexWord(s: string, pos: nat)
    requires pos + 4 <= |s|
  {
    IsHexDigit(s[pos]) && IsHexDigit(s[pos + 1]) && IsHexDigit(s[pos + 2]) && IsHexDigit(s[pos + 3])
  }

  /** Reads the 16 bytes as eight two-byte words, words `w` to 7 of them from position `pos`
      on, and yields the position after them, or None on a syntax error. PostgreSQL allows a
      hyphen after every odd-numbered byte but the last, that is before every word but the
      first. */
  function ReadWords(s: string, pos: nat, w: nat): Option<nat>
    requires pos <= |s| && w <= 8
    decreases 8 - w
  {
    if w == 8 then Some(pos)
    else
      var q := if 0 < w && pos < |s| && s[pos] == '-' then pos + 1 else pos;
      if q + 4 > |s| || !HexWord(s, q) then None
      else ReadWords(s, q + 4, w + 1)
  }

  /** The text is a valid `uuid` literal: the bytes, then the closing brace if one was opened,
      then the end of the text. */
  predicate IsUuid(s: string) {
    if |s| > 0 && s[0] == '{' then ReadWords(s, 1, 0) == Some(|s| - 1) && s[|s| - 1] == '}'
    else ReadWords(s, 0, 0) == Some(|s|)
  }

  /** The standard form: 36 characters, hyphens at positions 8, 13, 18 and 23 and hex digits
      everywhere else. */
  predicate IsCanonical(s: string) {
    |s| == 36 &&
    forall k :: 0 <= k < 36 ==>
      if k == 8 || k == 13 || k == 18 || k == 23 then s[k] == '-' else IsHexDigit(s[k])
  }

  /** One word of hex digits is read without looking further. */
  lemma StepWord(s: string, pos: nat, w: nat)
    requires pos + 4 <= |s| && w < 8 && HexWord(s, pos)
    ensures ReadWords(s, pos, w) == ReadWords(s, pos + 4, w + 1)
  {
    assert s[pos] != '-';
  }

  /** A hyphen before any word but the first is skipped. */
  lemma StepHyphenWord(s: string, pos: nat, w: nat)
    requires pos + 5 <= |s| && 0 < w < 8 && s[pos] == '-' && HexWord(s, pos + 1)
    ensures ReadWords(s, pos, w) == ReadWords(s, pos + 5, w + 1)
  {
  }

  /** The hex digits from `pos` up to `end` are read as words `w` up to `wEnd`. */
  lemma {:induction false} ReadHexRun(s: string, pos: nat, w: nat, end: nat, wEnd: nat)
    requires w <= wEnd <= 8 && end == pos + 4 * (wEnd - w) && end <= |s|
    requires forall k :: pos <= k < end ==> IsHexDigit(s[k])
    ensures ReadWords(s, pos, w) == ReadWords(s, end, wEnd)
    decreases wEnd - w
  {
    if w < wEnd {
      var next := pos + 4;
      assert IsHexDigit(s[pos]) && IsHexDigit(s[pos + 1]) && IsHexDigit(s[pos + 2]) && IsHexDigit(s[pos + 3]);
      StepWord(s, pos, w);
      assert end == next + 4 * (wEnd - (w + 1));
      ReadHexRun(s, next, w + 1, end, wEnd);
    }
  }

  /** A hyphen, then the hex digits up to `end`, read as words `w > 0` up to `wEnd`. */
  lemma ReadGroup(s: string, pos: nat, w: nat, end: nat, wEnd: nat)
    requires 0 < w < wEnd <= 8 && end == pos + 1 + 4 * (wEnd - w) && end <= |s|
    requires s[pos] == '-' && forall k :: pos < k < end ==> IsHexDigit(s[k])
    ensures ReadWords(s, pos, w) == ReadWords(s, end, wEnd)
  {
    var next := pos + 5;
    assert IsHexDigit(s[pos + 1]) && IsHexDigit(s[pos + 2]) && IsHexDigit(s[pos + 3]) && IsHexDigit(s[pos + 4]);
    StepHyphenWord(s, pos, w);
    assert end == next + 4 * (wEnd - (w + 1));
    ReadHexRun(s, next, w + 1, end, wEnd);
  }

  /** The standard form is accepted, read group by group: 8 digits, then hyphen-led groups of
      4, 4, 4 and 12. */
  lemma CanonicalIsUuid(s: string)
    requires IsCanonical(s)
    ensures IsUuid(s)
  {
    assert s[0] != '{' by { assert IsHexDigit(s[0]); }
    ReadHexRun(s, 0, 0, 8, 2);
    ReadGroup(s, 8, 2, 13, 3);
    ReadGroup(s, 13, 3, 18, 4);
    ReadGroup(s, 18, 4, 23, 5);
    ReadGroup(s, 23, 5, 36, 8);
  }

  /** 32 hex digits without any hyphen are accepted too. */
  lemma BareHexIsUuid(s: string)
    requires |s| == 32 && forall k :: 0 <= k < 32 ==> IsHexDigit(s[k])
    ensures IsUuid(s)
  {
    assert s[0] != '{' by { assert IsHexDigit(s[0]); }
    ReadHexRun(s, 0, 0, 32, 8);
  }

  /** Text that starts with neither a hex digit nor a brace is rejected. */
  lemma BadFirstCharIsNotUuid(s: string)
    requires |s| > 0 && !IsHexDigit(s[0]) && s[0] != '{'
    ensures !IsUuid(s)
  {
  }
}
