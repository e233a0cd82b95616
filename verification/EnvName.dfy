// pkg/client/cache.go: encodeEnvName, and the decoder that shows it is injective even on a
// file system that folds case.
module EnvName {
  import opened Core

  predicate IsByteString(s: string) { forall i | 0 <= i < |s| :: (s[i] as int) < 256 }

  predicate Verbatim(c: char) { 'a' <= c <= 'z' || '0' <= c <= '9' || c == '-' || c == '_' }

  const HEX := "0123456789ABCDEF"
  const ESCAPE := '~'
  const EMPTY_NAME := "~empty"

  function EncodeByte(c: char): string
    requires (c as int) < 256
  {
    if Verbatim(c) then [c] else [ESCAPE, HEX[c as int / 16], HEX[c as int % 16]]
  }

  function EncodeBytes(env: string): string
    requires IsByteString(env)
  {
    if env == "" then "" else EncodeByte(env[0]) + EncodeBytes(env[1..])
  }

  function Encode(env: string): string
    requires IsByteString(env)
  {
    if env == "" then EMPTY_NAME else EncodeBytes(env)
  }

  lemma {:induction false} EncodeBytesSnoc(env: string, c: char)
    requires IsByteString(env) && (c as int) < 256
    ensures IsByteString(env + [c]) && EncodeBytes(env + [c]) == EncodeBytes(env) + EncodeByte(c)
  {
    if env == "" {
      assert env + [c] == [c] && [c][1..] == "";
    } else {
      EncodeBytesSnoc(env[1..], c);
      assert (env + [c])[1..] == env[1..] + [c];
    }
  }

  method EncodeEnvName(env: string) returns (name: string)
    requires IsByteString(env)
    ensures name == Encode(env)
  {
    if env == "" {
      return EMPTY_NAME;
    }
    name := "";
    for i := 0 to |env|
      invariant name == EncodeBytes(env[..i])
    {
      var c := env[i];
      EncodeBytesSnoc(env[..i], c);
      assert env[..i + 1] == env[..i] + [c];
      if ('a' <= c <= 'z') || ('0' <= c <= '9') || c == '-' || c == '_' {
        name := name + [c];
      } else {
        name := name + [ESCAPE] + [HEX[c as int / 16]] + [HEX[c as int % 16]];
      }
    }
    assert env[..|env|] == env;
  }

  // ---- Decoding --------------------------------------------------------------------

  /** A hex digit in either case. */
  function HexValue(c: char): Option<nat> {
    if '0' <= c <= '9' then Some(c as int - '0' as int)
    else if 'A' <= c <= 'F' then Some(c as int - 'A' as int + 10)
    else if 'a' <= c <= 'f' then Some(c as int - 'a' as int + 10)
    else None
  }

  function DecodeBytes(s: string): Option<string> {
    if s == "" then Some("")
    else if s[0] != ESCAPE then
      match DecodeBytes(s[1..])
      case None => None
      case Some(rest) => Some([s[0]] + rest)
    else if |s| < 3 || HexValue(s[1]).None? || HexValue(s[2]).None? then None
    else
      match DecodeBytes(s[3..])
      case None => None
      case Some(rest) => Some([(16 * HexValue(s[1]).value + HexValue(s[2]).value) as char] + rest)
  }

  function Decode(name: string): Option<string> { if name == EMPTY_NAME then Some("") else DecodeBytes(name) }

  // ---- Case folding ----------------------------------------------------------------

  function FoldChar(c: char): char { if 'A' <= c <= 'Z' then c + ('a' - 'A') else c }

  /** What a case-folding file system compares. */
  function Fold(s: string): (f: string)
    ensures |f| == |s| && forall i | 0 <= i < |s| :: f[i] == FoldChar(s[i])
  {
    seq(|s|, i requires 0 <= i < |s| => FoldChar(s[i]))
  }

  lemma FoldAppends(a: string, b: string)
    ensures Fold(a + b) == Fold(a) + Fold(b)
  {
  }

  lemma HexDigit(n: nat)
    requires n < 16
    ensures HexValue(FoldChar(HEX[n])) == Some(n)
  {
    if n == 10 {} else if n == 11 {} else if n == 12 {} else if n == 13 {} else if n == 14 {} else if n == 15 {}
  }

  lemma DecodeOneByte(c: char, rest: string)
    requires (c as int) < 256
    ensures DecodeBytes(Fold(EncodeByte(c)) + rest)
            == match DecodeBytes(rest) case None => None case Some(r) => Some([c] + r)
  {
    var s := Fold(EncodeByte(c)) + rest;
    if Verbatim(c) {
      assert s[0] == c && s[1..] == rest;
    } else {
      HexDigit(c as int / 16);
      HexDigit(c as int % 16);
      assert s[0] == ESCAPE && s[3..] == rest;
      assert s[1] == FoldChar(HEX[c as int / 16]) && s[2] == FoldChar(HEX[c as int % 16]);
    }
  }

  lemma FoldOfEncoded(env: string)
    requires IsByteString(env) && env != ""
    ensures Fold(EncodeBytes(env)) == Fold(EncodeByte(env[0])) + Fold(EncodeBytes(env[1..]))
  {
    FoldAppends(EncodeByte(env[0]), EncodeBytes(env[1..]));
  }

  lemma {:induction false} DecodeBytesOfFold(env: string)
    requires IsByteString(env)
    ensures DecodeBytes(Fold(EncodeBytes(env))) == Some(env)
  {
    if env != "" {
      DecodeBytesOfFold(env[1..]);
      FoldOfEncoded(env);
      DecodeOneByte(env[0], Fold(EncodeBytes(env[1..])));
      assert env == [env[0]] + env[1..];
    } else {
      assert Fold("") == "";
    }
  }

  /** "~empty" cannot come from a name with bytes in it: 'm' is not a hex digit. */
  lemma EmptyNameIsReserved(env: string)
    requires IsByteString(env) && env != ""
    ensures Fold(Encode(env)) != EMPTY_NAME && Encode(env) != EMPTY_NAME
  {
    DecodeBytesOfFold(env);
    assert DecodeBytes(EMPTY_NAME) == None by {
      assert HexValue(EMPTY_NAME[2]).None?;
    }
    assert Fold(EMPTY_NAME) == EMPTY_NAME;
  }

  /** The environment name can be read back, from the folded file name too. */
  lemma DecodeOfFold(env: string)
    requires IsByteString(env)
    ensures Decode(Fold(Encode(env))) == Some(env)
  {
    if env == "" {
      assert Fold(EMPTY_NAME) == EMPTY_NAME;
    } else {
      EmptyNameIsReserved(env);
      DecodeBytesOfFold(env);
    }
  }

  /** Distinct environments get distinct files, on any file system that folds ASCII case or none. */
  lemma NamesAreInjective(a: string, b: string)
    requires IsByteString(a) && IsByteString(b) && Fold(Encode(a)) == Fold(Encode(b))
    ensures a == b
  {
    DecodeOfFold(a);
    DecodeOfFold(b);
  }

  predicate Plain(c: char) { Verbatim(c) || c == ESCAPE || 'A' <= c <= 'F' }

  /** No separator, dot or NUL survives, so the name stays one component of a path. */
  lemma {:induction false} NamesAreOneComponent(env: string)
    requires IsByteString(env)
    ensures forall c | c in EncodeBytes(env) :: Plain(c)
  {
    if env != "" {
      NamesAreOneComponent(env[1..]);
      OneByteIsPlain(env[0]);
      assert EncodeBytes(env) == EncodeByte(env[0]) + EncodeBytes(env[1..]);
    }
  }

  lemma OneByteIsPlain(b: char)
    requires (b as int) < 256
    ensures forall c | c in EncodeByte(b) :: Plain(c)
  {
    if !Verbatim(b) {
      HexIsPlain(b as int / 16);
      HexIsPlain(b as int % 16);
    }
  }

  lemma HexIsPlain(n: nat)
    requires n < 16
    ensures Plain(HEX[n])
  {
    if n == 10 {} else if n == 11 {} else if n == 12 {} else if n == 13 {} else if n == 14 {} else if n == 15 {}
  }

  /** Two names as they come out: verbatim but for the escaped bytes. */
  lemma EncodedNamesInFull()
    ensures IsByteString("eu-1") && Encode("eu-1") == "eu-1"
    ensures IsByteString("A/") && Encode("A/") == "~41~2F"
  {
    assert EncodeBytes("") == "" && "1"[1..] == "" && "-1"[1..] == "1" && "u-1"[1..] == "-1" && "eu-1"[1..] == "u-1";
    assert "A/"[1..] == "/" && "/"[1..] == "";
    assert EncodeByte('A') == "~41" && EncodeByte('/') == "~2F";
  }
}
