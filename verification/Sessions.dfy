/**
 * Session numbers: the first three characters of a session id name the runner that owns it,
 * as base-64 digits with the least significant one first.
 */
module Sessions {
  import opened Strings

  const COOKIE := "JSESSIONID="
  const MARKER := ";jsessionid="

  /** The value `decode_session` gives a character; digits fall on the values of 'J'..'S'. */
  function Digit(c: char): (v: int)
    ensures -1 <= v < 64
  {
    if 'a' <= c <= 'z' then c as int - 'a' as int
    else if 'A' <= c <= 'Z' then c as int - 'A' as int + 26
    else if '0' <= c <= '9' then c as int - 'A' as int + 52
    else if c == '_' then 62
    else if c == '/' then 63
    else -1
  }

  /** `decode_session`; a terminator among the first three characters is no valid digit. */
  method DecodeSession(session: string) returns (value: int)
    ensures value == Decode(session)
  {
    value := 0;
    var i := 2;
    while i >= 0
      invariant -1 <= i <= 2
      invariant i < 2 ==> |session| >= 3
      invariant i == 2 ==> value == 0
      invariant i == 1 ==> Digit(session[2]) >= 0 && value == Digit(session[2])
      invariant i == 0 ==>
        && Digit(session[2]) >= 0 && Digit(session[1]) >= 0
        && value == 64 * Digit(session[2]) + Digit(session[1])
      invariant i == -1 ==> Decode(session) == value
    {
      if i >= |session| || Digit(session[i]) < 0 {
        return -1;
      }
      value := 64 * value + Digit(session[i]);
      i := i - 1;
    }
  }

  function Decode(session: string): (value: int)
    ensures -1 <= value < 64 * 64 * 64
  {
    if |session| < 3 || Digit(session[0]) < 0 || Digit(session[1]) < 0 || Digit(session[2]) < 0 then -1
    else Digit(session[0]) + 64 * Digit(session[1]) + 4096 * Digit(session[2])
  }

  /** The character Resin writes for a base-64 digit. */
  function Letter(v: nat): char
    requires v < 64
  {
    if v < 26 then 'a' + v as char
    else if v < 52 then 'A' + (v - 26) as char
    else if v < 62 then '0' + (v - 52) as char
    else if v == 62 then '_' else '/'
  }

  /** The id prefix of a runner: "aaa" for runner 0, "baa" for runner 1, and so on. */
  function Encode(k: nat): string
    requires k < 64 * 64 * 64
  {
    [Letter(k % 64), Letter(k / 64 % 64), Letter(k / 4096)]
  }

  predicate Numeral(v: nat)
  {
    52 <= v < 62
  }

  lemma DigitOfLetter(v: nat)
    requires v < 64
    ensures Digit(Letter(v)) == if Numeral(v) then v - 17 else v
  {
  }

  /** The alphabet of session ids, each character at its value. */
  const ALPHABET := LOWER + UPPER + NUMERALS + "_/"
  const LOWER := "abcdefghijklmnopqrstuvwxyz"
  const UPPER := "ABCDEFGHIJKLMNOPQRSTUVWXYZ"
  const NUMERALS := "0123456789"

  lemma LetterTable()
    ensures |ALPHABET| == 64 && forall v :: 0 <= v < 64 ==> Letter(v) == ALPHABET[v]
  {
    assert LOWER == seq(26, i requires 0 <= i < 26 => 'a' + i as char);
    assert UPPER == seq(26, i requires 0 <= i < 26 => 'A' + i as char);
    assert NUMERALS == seq(10, i requires 0 <= i < 10 => '0' + i as char);
    hide LOWER, UPPER, NUMERALS;
  }

  /**
   * The digits character by character: letters, the underscore and the slash stand at their
   * values, the numerals fall on 35 to 44, and every other character is none.
   */
  lemma DigitTable(c: char)
    ensures Digit(c) == -1 <==> c !in ALPHABET
    ensures forall v :: 0 <= v < 64 && c == ALPHABET[v] ==> Digit(c) == if 52 <= v < 62 then v - 17 else v
  {
    hide ALPHABET;
    LetterTable();
    forall v | 0 <= v < 64 ensures Digit(ALPHABET[v]) == if 52 <= v < 62 then v - 17 else v {
      DigitOfLetter(v);
    }
    if Digit(c) != -1 {
      var v := if 'a' <= c <= 'z' then c as int - 'a' as int
               else if 'A' <= c <= 'Z' then c as int - 'A' as int + 26
               else if '0' <= c <= '9' then c as int - '0' as int + 52
               else if c == '_' then 62 else 63;
      assert c == Letter(v) == ALPHABET[v];
    }
  }

  /** A session id names no runner exactly if it is too short or a foreign character is among its first three. */
  lemma NoSession(session: string)
    ensures Decode(session) == -1
            <==> |session| < 3 || exists i :: 0 <= i < 3 && session[i] !in ALPHABET
  {
    hide Digit, Letter, ALPHABET;
    if |session| >= 3 {
      DigitTable(session[0]);
      DigitTable(session[1]);
      DigitTable(session[2]);
    }
  }

  /** The number comes back exactly when none of its base-64 digits is written as a numeral. */
  lemma DecodeEncode(k: nat, rest: string)
    requires k < 64 * 64 * 64
    ensures Decode(Encode(k) + rest) == k <==> !Numeral(k % 64) && !Numeral(k / 64 % 64) && !Numeral(k / 4096)
  {
    var a, b, c := k % 64, k / 64 % 64, k / 4096;
    assert k == a + 64 * b + 4096 * c;
    DigitOfLetter(a);
    DigitOfLetter(b);
    DigitOfLetter(c);
    var s := Encode(k) + rest;
    assert s[0] == Letter(a) && s[1] == Letter(b) && s[2] == Letter(c);
  }

  /** Ids of the first runners, and the smallest runner the digits lose: 52 is written "0aa" and read as 35. */
  lemma NumeralsCollide()
    ensures Encode(0) == "aaa" && Encode(1) == "baa" && Encode(64) == "aba" && Encode(4096) == "aab"
    ensures Encode(52) == "0aa" && Encode(35) == "Jaa" && Decode("0aa") == Decode("Jaa") == 35
  {
  }

  /** `cse_session_from_string`: only the first occurrence of the name counts. */
  function FromString(source: string, cookie: string): (value: int)
    ensures value >= -1
  {
    var m := Find(source, cookie);
    if m.None? then -1 else Decode(source[m.value + |cookie|..])
  }

  /** `get_session_index`: the first Cookie header that yields a number, else the URI. */
  method SessionIndex(cookies: seq<string>, uri: string) returns (session: int)
    ensures (exists i :: 0 <= i < |cookies| && FromString(cookies[i], COOKIE) >= 0) ==>
              exists i :: 0 <= i < |cookies| && session == FromString(cookies[i], COOKIE) >= 0
                          && forall j :: 0 <= j < i ==> FromString(cookies[j], COOKIE) < 0
    ensures (forall i :: 0 <= i < |cookies| ==> FromString(cookies[i], COOKIE) < 0) ==>
              session == FromString(uri, MARKER)
  {
    for i := 0 to |cookies|
      invariant forall j :: 0 <= j < i ==> FromString(cookies[j], COOKIE) < 0
    {
      session := FromString(cookies[i], COOKIE);
      if session >= 0 {
        return;
      }
    }
    session := FromString(uri, MARKER);
  }

  /**
   * A URL rewritten with the id of runner k is read back as k, for every path that does not
   * itself contain the marker, exactly when k avoids numerals.
   */
  lemma RewrittenUrlNamesRunner(path: string, k: nat, rest: string)
    requires k < 64 * 64 * 64 && Find(path, ";jsessionid=").None?
    ensures FromString(path + ";jsessionid=" + (Encode(k) + rest), MARKER) == k
            <==> !Numeral(k % 64) && !Numeral(k / 64 % 64) && !Numeral(k / 4096)
  {
    var tail := Encode(k) + rest;
    MarkerFirst();
    FindAppended(path, MARKER, tail);
    var source := path + MARKER + tail;
    assert source[|path| + |MARKER|..] == tail;
    DecodeEncode(k, rest);
  }

  /** A cookie of that name, wherever it stands in the header, names the runner its value begins with. */
  lemma CookieNamesRunner(before: string, k: nat, rest: string)
    requires k < 64 * 64 * 64 && Find(before, "JSESSIONID=").None?
    ensures FromString(before + "JSESSIONID=" + (Encode(k) + rest), COOKIE) == k
            <==> !Numeral(k % 64) && !Numeral(k / 64 % 64) && !Numeral(k / 4096)
  {
    var tail := Encode(k) + rest;
    FindAppended(before, COOKIE, tail);
    assert (before + COOKIE + tail)[|before| + |COOKIE|..] == tail;
    DecodeEncode(k, rest);
  }

  /** The marker's first character does not recur in it. */
  lemma MarkerFirst()
    ensures forall i :: 0 < i < |MARKER| ==> MARKER[i] != MARKER[0]
  {
  }
}
