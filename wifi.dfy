// The Wi-Fi station's captive portal and reconnect policy: decoding the
// form the portal page posts (percent-escapes and '+'), extracting the
// SSID and password fields into fixed-size buffers, refusing an empty
// SSID, and the bounded retry counter of the station event handler.
module WifiStation {
  import opened Esp

  /** EXAMPLE_ESP_MAXIMUM_RETRY: reconnect attempts before the failure bit is raised. */
  const MaxRetry: nat := 3

  /** MAX_SSID_LEN: size of the SSID buffer, NUL included. */
  const MaxSsidLen: nat := 32

  /** MAX_PASSWORD_LEN: size of the password buffer, NUL included. */
  const MaxPasswordLen: nat := 64

  /** Size of the buffer the form body is received into, NUL included. */
  const ContentSize: nat := 200

  /** HTTPD_SOCK_ERR_TIMEOUT, what a receive returns when the client is too slow. */
  const SockErrTimeout: int := -3

  /** The range of the target's 32-bit unsigned long. */
  const ULongMod: nat := 0x1_0000_0000

  const SsidKey: string := "ssid="
  const PasswordKey: string := "password="

  // ---------------------------------------------------------------------
  // C strings
  // ---------------------------------------------------------------------

  /** The C string a character buffer holds: everything before the first NUL. */
  function CStr(s: seq<char>): (r: seq<char>)
    ensures |r| <= |s| && r == s[..|r|]
    ensures forall k :: 0 <= k < |r| ==> r[k] != '\0'
    ensures |r| < |s| ==> s[|r|] == '\0'
  {
    if |s| == 0 || s[0] == '\0' then [] else [s[0]] + CStr(s[1..])
  }

  /** A buffer without NUL is its own C string. */
  lemma {:induction false} CStrWithoutNul(s: seq<char>)
    requires forall k :: 0 <= k < |s| ==> s[k] != '\0'
    ensures CStr(s) == s
  {
    if |s| > 0 {
      CStrWithoutNul(s[1..]);
    }
  }

  /** A buffer whose first NUL is at n holds the C string of its first n characters. */
  lemma {:induction false} CStrAt(s: seq<char>, n: nat)
    requires n < |s| && s[n] == '\0'
    requires forall k :: 0 <= k < n ==> s[k] != '\0'
    ensures CStr(s) == s[..n]
  {
    if n > 0 {
      CStrAt(s[1..], n - 1);
      assert s[..n] == [s[0]] + s[1..][..n - 1];
    }
  }

  /** strlen: the index of the first NUL in a buffer that holds one. */
  method StrLen(a: array<char>, bound: nat) returns (n: nat)
    requires bound < a.Length && a[bound] == '\0'
    ensures n <= bound && a[n] == '\0'
    ensures forall k :: 0 <= k < n ==> a[k] != '\0'
  {
    n := 0;
    while a[n] != '\0'
      invariant n <= bound
      invariant forall k :: 0 <= k < n ==> a[k] != '\0'
      decreases bound - n
    {
      n := n + 1;
    }
  }

  // ---------------------------------------------------------------------
  // url_decode
  // ---------------------------------------------------------------------

  /** The value of a hexadecimal digit, either case. */
  function HexValue(c: char): Option<nat>
  {
    if '0' <= c <= '9' then Some(c as int - '0' as int)
    else if 'a' <= c <= 'f' then Some(c as int - 'a' as int + 10)
    else if 'A' <= c <= 'F' then Some(c as int - 'A' as int + 10)
    else None
  }

  /** isspace in the C locale. */
  predicate IsSpace(c: char)
  {
    c == ' ' || c == '\t' || c == '\n' || c == '\U{B}' || c == '\U{C}' || c == '\r'
  }

  /**
   * strtoul(base 16) on the two-character string "ab", when it consumes both
   * characters: two hex digits; white space or '+' and one digit; or '-' and
   * one digit, negated modulo the width of unsigned long.
   */
  function Strtoul2(a: char, b: char): Option<nat>
  {
    if HexValue(a).Some? && HexValue(b).Some? then Some(16 * HexValue(a).value + HexValue(b).value)
    else if (IsSpace(a) || a == '+') && HexValue(b).Some? then Some(HexValue(b).value)
    else if a == '-' && HexValue(b).Some? then Some(if HexValue(b).value == 0 then 0 else ULongMod - HexValue(b).value)
    else None
  }

  /** The character a '%' followed by a and b decodes to, if the sequence is accepted. */
  function Escape(a: char, b: char): Option<char>
  {
    var v := Strtoul2(a, b);
    if v.Some? && v.value <= 255 then Some(v.value as char) else None
  }

  /**
   * One step of url_decode at index i of s: the character written and how
   * many are consumed. '+' gives a space; '%' with two more characters that
   * form an accepted escape gives the escaped character; anything else is
   * copied.
   */
  function HeadAt(s: string, i: nat): (r: (char, nat))
    requires i < |s|
    ensures 1 <= r.1 <= |s| - i
  {
    if s[i] == '+' then (' ', 1)
    else if s[i] == '%' && i + 2 < |s| && Escape(s[i + 1], s[i + 2]).Some? then (Escape(s[i + 1], s[i + 2]).value, 3)
    else (s[i], 1)
  }

  /** One step of url_decode at the start of s. */
  function Head(s: string): (r: (char, nat))
    requires |s| > 0
    ensures 1 <= r.1 <= |s|
  {
    HeadAt(s, 0)
  }

  /** The text url_decode leaves in the buffer, for a string without NUL. */
  function UrlDecoded(s: string): string
    decreases |s|
  {
    if |s| == 0 then [] else [Head(s).0] + UrlDecoded(s[Head(s).1..])
  }

  /** What url_decode writes from index i of s on. */
  function DecodeFrom(s: string, i: nat): string
    requires i <= |s|
    decreases |s| - i
  {
    if i == |s| then [] else [HeadAt(s, i).0] + DecodeFrom(s, i + HeadAt(s, i).1)
  }

  /** Decoding from index i is decoding the suffix that starts there. */
  lemma {:induction false} DecodeFromSuffix(s: string, i: nat)
    requires i <= |s|
    ensures DecodeFrom(s, i) == UrlDecoded(s[i..])
    decreases |s| - i
  {
    if i < |s| {
      var h := HeadAt(s, i);
      assert s[i..][0] == s[i];
      if i + 2 < |s| {
        assert s[i..][1] == s[i + 1] && s[i..][2] == s[i + 2];
      }
      assert Head(s[i..]) == h;
      DecodeFromSuffix(s, i + h.1);
      assert s[i..][h.1..] == s[i + h.1..];
    }
  }

  /** url_decode: rewrites the C string of length len in place, reading at src and writing at dst <= src. */
  method UrlDecode(buf: array<char>, len: nat) returns (newLen: nat)
    requires len < buf.Length && buf[len] == '\0'
    requires forall k :: 0 <= k < len ==> buf[k] != '\0'
    modifies buf
    ensures newLen <= len
    ensures buf[..newLen] == UrlDecoded(old(buf[..len])) && buf[newLen] == '\0'
    ensures forall k :: len < k < buf.Length ==> buf[k] == old(buf[k])
  {
    ghost var s := buf[..len];
    var src := 0;
    var dst := 0;
    while buf[src] != '\0'
      invariant dst <= src <= len
      invariant buf[len] == '\0'
      invariant forall k :: src <= k < len ==> buf[k] == s[k]
      invariant forall k :: 0 <= k < len ==> s[k] != '\0'
      invariant buf[..dst] + DecodeFrom(s, src) == DecodeFrom(s, 0)
      invariant forall k :: len < k < buf.Length ==> buf[k] == old(buf[k])
      decreases len - src
    {
      var step := DecodeStep(buf, s, src, dst, len);
      dst := dst + 1;
      src := src + step;
    }
    ghost var decoded := buf[..dst];
    assert decoded == DecodeFrom(s, 0);
    buf[dst] := '\0';
    assert buf[..dst] == decoded;
    DecodeFromSuffix(s, 0);
    assert s[0..] == s;
    newLen := dst;
  }

  /** One pass of url_decode's loop: the character decoded at src is written at dst, and src moves past what it used. */
  method DecodeStep(buf: array<char>, ghost s: string, src: nat, dst: nat, len: nat) returns (step: nat)
    requires dst <= src < len < buf.Length && |s| == len && buf[len] == '\0'
    requires forall k :: src <= k < len ==> buf[k] == s[k] && s[k] != '\0'
    requires buf[..dst] + DecodeFrom(s, src) == DecodeFrom(s, 0)
    modifies buf
    ensures 0 < step && src + step <= len && buf[len] == '\0'
    ensures forall k :: src + step <= k < len ==> buf[k] == s[k]
    ensures buf[..dst + 1] + DecodeFrom(s, src + step) == DecodeFrom(s, 0)
    ensures forall k :: len < k < buf.Length ==> buf[k] == old(buf[k])
  {
    var out;
    out, step := ReadStep(buf, s, src, len);
    ghost var before := buf[..dst];
    ghost var rest := DecodeFrom(s, src + step);
    assert DecodeFrom(s, src) == [out] + rest;
    buf[dst] := out;
    assert buf[..dst + 1] == before + [out];
    assert (before + [out]) + rest == before + ([out] + rest);
  }

  /** The characters url_decode looks at from src on, and what it makes of them. */
  method ReadStep(buf: array<char>, ghost s: string, src: nat, len: nat) returns (out: char, step: nat)
    requires src < len < buf.Length && |s| == len && buf[len] == '\0'
    requires forall k :: src <= k < len ==> buf[k] == s[k] && s[k] != '\0'
    ensures (out, step) == HeadAt(s, src)
  {
    var c := buf[src];
    out := c;
    step := 1;
    if c == '+' {
      out := ' ';
    } else if c == '%' && buf[src + 1] != '\0' && buf[src + 2] != '\0' {
      var e := Escape(buf[src + 1], buf[src + 2]);
      if e.Some? {
        out := e.value;
        step := 3;
      }
    }
  }

  /** Decoding never lengthens the text, so it fits back into its own buffer. */
  lemma {:induction false} DecodedNoLonger(s: string)
    ensures |UrlDecoded(s)| <= |s|
    decreases |s|
  {
    if |s| > 0 {
      DecodedNoLonger(s[1..]);
      if |s| >= 3 {
        DecodedNoLonger(s[3..]);
      }
    }
  }

  /** Text without '+' or '%' is left as it is. */
  lemma {:induction false} PlainTextUnchanged(s: string)
    requires forall k :: 0 <= k < |s| ==> s[k] != '+' && s[k] != '%'
    ensures UrlDecoded(s) == s
    decreases |s|
  {
    if |s| > 0 {
      PlainTextUnchanged(s[1..]);
    }
  }

  /** Every '+' becomes a space, and a '%' in the last two places is copied as it is. */
  lemma PlusAndShortEscape(rest: string, a: char)
    ensures UrlDecoded(['+'] + rest) == [' '] + UrlDecoded(rest)
    ensures UrlDecoded(['%']) == ['%']
    ensures a != '+' && a != '%' ==> UrlDecoded(['%', a]) == ['%', a]
  {
    assert (['+'] + rest)[1..] == rest;
    assert ['%', a][1..] == [a];
    assert [a][1..] == [];
  }

  /** strtoul's leniency: white space or '+' before a single digit is accepted. */
  lemma SpaceOrPlusEscapes()
    ensures UrlDecoded("% 9") == ['\t']
    ensures UrlDecoded("%+A") == ['\n']
  {
    assert Head("% 9") == ('\t', 3);
    assert "% 9"[3..] == [];
    assert Head("%+A") == ('\n', 3);
    assert "%+A"[3..] == [];
  }

  /** A negated digit wraps to a value above 255 and is copied, except "-0", which yields a NUL that ends the C string. */
  lemma NegativeEscapes()
    ensures UrlDecoded("%-1") == "%-1"
    ensures UrlDecoded("%-0x") == ['\0', 'x'] && CStr(UrlDecoded("%-0x")) == []
  {
    assert Head("%-1") == ('%', 1);
    assert "%-1"[1..] == "-1";
    assert Head("-1") == ('-', 1);
    assert "-1"[1..] == "1";
    assert Head("1") == ('1', 1);
    assert "1"[1..] == [];
    assert Head("%-0x") == ('\0', 3);
    assert "%-0x"[3..] == "x";
    assert Head("x") == ('x', 1);
    assert "x"[1..] == [];
  }

  /** A "0x" prefix without digits after it is not an escape. */
  lemma HexPrefixNotEscape()
    ensures UrlDecoded("%0x") == "%0x"
  {
    assert Head("%0x") == ('%', 1);
    assert "%0x"[1..] == "0x";
    assert Head("0x") == ('0', 1);
    assert "0x"[1..] == "x";
    assert Head("x") == ('x', 1);
    assert "x"[1..] == [];
  }

  /** The upper-case hexadecimal digit for a value below 16. */
  function HexDigit(d: nat): char
    requires d < 16
  {
    if d < 10 then ('0' as int + d) as char else ('A' as int + d - 10) as char
  }

  /** The characters a browser's form encoding leaves as they are: ASCII letters, digits and "*-._". */
  predicate Unreserved(c: char)
  {
    'a' <= c <= 'z' || 'A' <= c <= 'Z' || '0' <= c <= '9' || c == '*' || c == '-' || c == '.' || c == '_'
  }

  /** How the form encoding writes one byte-sized character. */
  function EncodeChar(c: char): (r: string)
    requires c as int < 256
    ensures 1 <= |r| <= 3
  {
    if Unreserved(c) then [c]
    else if c == ' ' then ['+']
    else ['%', HexDigit(c as int / 16), HexDigit(c as int % 16)]
  }

  /**
   * application/x-www-form-urlencoded, as a browser posts a form field:
   * unreserved characters kept, a space as '+', every other byte as %XX.
   */
  function FormEncoded(s: string): (r: string)
    requires forall k :: 0 <= k < |s| ==> s[k] as int < 256
    ensures |s| <= |r| <= 3 * |s|
  {
    if |s| == 0 then [] else EncodeChar(s[0]) + FormEncoded(s[1..])
  }

  /** Decoding inverts the form encoding. */
  lemma {:induction false} DecodeEncodeRoundTrip(s: string)
    requires forall k :: 0 <= k < |s| ==> s[k] as int < 256
    ensures UrlDecoded(FormEncoded(s)) == s
    decreases |s|
  {
    if |s| > 0 {
      var c := s[0];
      var e := FormEncoded(s);
      var ec := EncodeChar(c);
      assert e == ec + FormEncoded(s[1..]);
      if !Unreserved(c) && c != ' ' {
        var hi, lo := c as int / 16, c as int % 16;
        assert HexValue(HexDigit(hi)) == Some(hi);
        assert HexValue(HexDigit(lo)) == Some(lo);
        assert Escape(e[1], e[2]) == Some(c);
      }
      assert Head(e) == (c, |ec|);
      assert e[|ec|..] == FormEncoded(s[1..]);
      DecodeEncodeRoundTrip(s[1..]);
    }
  }

  /** A character the form encoding can produce. */
  predicate FormChar(c: char)
  {
    Unreserved(c) || c == '+' || c == '%'
  }

  /** Form-encoded text holds only unreserved characters, '+' and '%': no '&', '=' or NUL. */
  lemma {:induction false} EncodedAlphabet(s: string)
    requires forall k :: 0 <= k < |s| ==> s[k] as int < 256
    ensures forall k :: 0 <= k < |FormEncoded(s)| ==> FormChar(FormEncoded(s)[k])
    decreases |s|
  {
    if |s| > 0 {
      EncodedAlphabet(s[1..]);
      var ec := EncodeChar(s[0]);
      var rest := FormEncoded(s[1..]);
      assert FormEncoded(s) == ec + rest;
      forall k | 0 <= k < |ec| + |rest|
        ensures FormChar((ec + rest)[k])
      {
        if k >= |ec| {
          assert (ec + rest)[k] == rest[k - |ec|];
        }
      }
    }
  }

  // ---------------------------------------------------------------------
  // Form fields
  // ---------------------------------------------------------------------

  /** key occurs in text at position i. */
  predicate OccursAt(text: string, key: string, i: nat)
  {
    i + |key| <= |text| && text[i..i + |key|] == key
  }

  /** strstr from position 'from': the first occurrence of key at or after it. */
  function FindFrom(text: string, key: string, from: nat): (r: Option<nat>)
    requires from <= |text|
    ensures r.Some? ==> from <= r.value && OccursAt(text, key, r.value)
    ensures r.Some? ==> forall j :: from <= j < r.value ==> !OccursAt(text, key, j)
    ensures r.None? ==> forall j :: from <= j <= |text| ==> !OccursAt(text, key, j)
    decreases |text| - from
  {
    if OccursAt(text, key, from) then Some(from)
    else if from == |text| then None
    else FindFrom(text, key, from + 1)
  }

  /** The position of the first '&' in s, or |s| if there is none (strchr). */
  function AmpIndex(s: string): (r: nat)
    ensures r <= |s| && (r < |s| ==> s[r] == '&')
    ensures forall k :: 0 <= k < r ==> s[k] != '&'
  {
    if |s| == 0 || s[0] == '&' then 0 else 1 + AmpIndex(s[1..])
  }

  /** The raw value of a form field: after the first occurrence of key, up to '&', at most cap characters. */
  function FieldText(text: string, key: string, cap: nat): (r: Option<string>)
    ensures r.Some? ==> |r.value| <= cap
  {
    var i := FindFrom(text, key, 0);
    if i.None? then None
    else
      var rest := text[i.value + |key|..];
      var v := rest[..AmpIndex(rest)];
      Some(v[..Min(|v|, cap)])
  }

  /** The C string a field buffer holds after the copy and url_decode; empty when the key is absent. */
  function FieldValue(text: string, key: string, cap: nat): string
  {
    var f := FieldText(text, key, cap);
    if f.None? then [] else CStr(UrlDecoded(f.value))
  }

  /** What the save handler does with a request. */
  datatype PostOutcome = Timeout408 | RecvFailed | Saved(ssid: string, password: string) | SsidRequired

  /** save_post_handler, given what the one receive call returned and the bytes it delivered. */
  function PostSpec(body: seq<char>, recvResult: int): PostOutcome
    requires recvResult < ContentSize
    requires recvResult > 0 ==> recvResult <= |body|
  {
    if recvResult <= 0 then (if recvResult == SockErrTimeout then Timeout408 else RecvFailed)
    else
      var text := CStr(body[..recvResult]);
      var ssid := FieldValue(text, SsidKey, MaxSsidLen - 1);
      var password := FieldValue(text, PasswordKey, MaxPasswordLen - 1);
      if |ssid| > 0 then Saved(ssid, password) else SsidRequired
  }

  /** Credentials are saved only with a non-empty SSID, and both fit their buffers with the NUL. */
  lemma SavedCredentialsFit(body: seq<char>, recvResult: int)
    requires recvResult < ContentSize
    requires recvResult > 0 ==> recvResult <= |body|
    ensures PostSpec(body, recvResult).Saved? ==>
      0 < |PostSpec(body, recvResult).ssid| < MaxSsidLen &&
      |PostSpec(body, recvResult).password| < MaxPasswordLen
  {
    if recvResult > 0 {
      var text := CStr(body[..recvResult]);
      var s := FieldText(text, SsidKey, MaxSsidLen - 1);
      var p := FieldText(text, PasswordKey, MaxPasswordLen - 1);
      if s.Some? {
        DecodedNoLonger(s.value);
      }
      if p.Some? {
        DecodedNoLonger(p.value);
      }
    }
  }

  /** No "password=" starts at a position before n when none of the characters it would end on is '='. */
  lemma NoPasswordKeyBefore(text: string, n: nat)
    requires n <= |text|
    requires forall k :: 8 <= k < n + 8 && k < |text| ==> text[k] != '='
    ensures forall j :: 0 <= j < n ==> !OccursAt(text, PasswordKey, j)
  {
    forall j | 0 <= j < n
      ensures !OccursAt(text, PasswordKey, j)
    {
      if j + |PasswordKey| <= |text| {
        assert text[j..j + |PasswordKey|][8] == text[j + 8];
      }
    }
  }

  /** The form a browser posts for the given SSID and password. */
  function Form(ssid: string, password: string): string
    requires forall k :: 0 <= k < |ssid| ==> ssid[k] as int < 256
    requires forall k :: 0 <= k < |password| ==> password[k] as int < 256
  {
    SsidKey + FormEncoded(ssid) + "&" + PasswordKey + FormEncoded(password)
  }

  /** Such a form holds no NUL, so it is its own C string. */
  lemma FormIsCString(ssid: string, password: string)
    requires forall k :: 0 <= k < |ssid| ==> ssid[k] as int < 256
    requires forall k :: 0 <= k < |password| ==> password[k] as int < 256
    ensures CStr(Form(ssid, password)) == Form(ssid, password)
  {
    var es, ep := FormEncoded(ssid), FormEncoded(password);
    var form := Form(ssid, password);
    EncodedAlphabet(ssid);
    EncodedAlphabet(password);
    var head := SsidKey + es + "&" + PasswordKey;
    forall k | 0 <= k < |form|
      ensures form[k] != '\0'
    {
      if k >= |head| {
        assert form[k] == ep[k - |head|];
      } else if 5 <= k < 5 + |es| {
        assert form[k] == es[k - 5];
      }
    }
    CStrWithoutNul(form);
  }

  /**
   * When key first occurs at 'at' and is followed by v, which holds no '&'
   * and is ended by '&' or the end of the text, the field's value is v.
   */
  lemma FieldAfterKey(text: string, key: string, at: nat, v: string, cap: nat)
    requires OccursAt(text, key, at)
    requires forall j :: 0 <= j < at ==> !OccursAt(text, key, j)
    requires at + |key| + |v| <= |text| && text[at + |key|..at + |key| + |v|] == v
    requires forall k :: 0 <= k < |v| ==> v[k] != '&'
    requires at + |key| + |v| == |text| || text[at + |key| + |v|] == '&'
    requires |v| <= cap
    ensures FieldText(text, key, cap) == Some(v)
  {
    var i := FindFrom(text, key, 0);
    assert i == Some(at);
    var rest := text[at + |key|..];
    assert forall k :: 0 <= k < |v| ==> rest[k] == v[k];
    var amp := AmpIndex(rest);
    assert amp == |v|;
    assert rest[..amp] == v;
    assert v[..Min(|v|, cap)] == v;
  }

  /** The two fields of "ssid=<es>&password=<ep>" when neither value holds '&' and es holds no '='. */
  lemma FieldsOfForm(es: string, ep: string)
    requires |es| < MaxSsidLen && |ep| < MaxPasswordLen
    requires forall k :: 0 <= k < |es| ==> es[k] != '&' && es[k] != '='
    requires forall k :: 0 <= k < |ep| ==> ep[k] != '&'
    ensures FieldText(SsidKey + es + "&" + PasswordKey + ep, SsidKey, MaxSsidLen - 1) == Some(es)
    ensures FieldText(SsidKey + es + "&" + PasswordKey + ep, PasswordKey, MaxPasswordLen - 1) == Some(ep)
  {
    var head := SsidKey + es + "&";
    var form := head + PasswordKey + ep;
    assert form == SsidKey + es + "&" + PasswordKey + ep;
    SsidFieldOfForm(head, form, es, ep);
    PasswordFieldOfForm(head, form, es, ep);
  }

  lemma SsidFieldOfForm(head: string, form: string, es: string, ep: string)
    requires head == SsidKey + es + "&" && form == head + PasswordKey + ep
    requires |es| < MaxSsidLen
    requires forall k :: 0 <= k < |es| ==> es[k] != '&'
    ensures FieldText(form, SsidKey, MaxSsidLen - 1) == Some(es)
  {
    assert form[..5] == SsidKey;
    assert form[5..5 + |es|] == es;
    assert form[5 + |es|] == '&';
    FieldAfterKey(form, SsidKey, 0, es, MaxSsidLen - 1);
  }

  lemma PasswordFieldOfForm(head: string, form: string, es: string, ep: string)
    requires head == SsidKey + es + "&" && form == head + PasswordKey + ep
    requires |ep| < MaxPasswordLen
    requires forall k :: 0 <= k < |es| ==> es[k] != '='
    requires forall k :: 0 <= k < |ep| ==> ep[k] != '&'
    ensures FieldText(form, PasswordKey, MaxPasswordLen - 1) == Some(ep)
  {
    var at := |head|;
    forall k | 8 <= k < at + 8 && k < |form|
      ensures form[k] != '='
    {
      if k < at {
        assert form[k] == head[k];
        if k < 5 + |es| {
          assert head[k] == es[k - 5];
        }
      } else {
        assert form[k] == PasswordKey[k - at];
      }
    }
    NoPasswordKeyBefore(form, at);
    assert form[at..at + |PasswordKey|] == PasswordKey;
    assert form[at + |PasswordKey|..] == ep;
    FieldAfterKey(form, PasswordKey, at, ep, MaxPasswordLen - 1);
  }

  /**
   * The form a browser posts for a non-empty SSID and a password whose
   * encodings fit the field buffers saves exactly the SSID and password that
   * were typed.
   */
  lemma WellFormedFormSaves(ssid: string, password: string)
    requires 0 < |ssid|
    requires forall k :: 0 <= k < |ssid| ==> 0 < ssid[k] as int < 256
    requires forall k :: 0 <= k < |password| ==> 0 < password[k] as int < 256
    requires |FormEncoded(ssid)| < MaxSsidLen && |FormEncoded(password)| < MaxPasswordLen
    ensures |Form(ssid, password)| < ContentSize
    ensures PostSpec(Form(ssid, password), |Form(ssid, password)|) == Saved(ssid, password)
  {
    var form := Form(ssid, password);
    assert form[..|form|] == form;
    FormIsCString(ssid, password);
    EncodedAlphabet(ssid);
    EncodedAlphabet(password);
    FieldsOfForm(FormEncoded(ssid), FormEncoded(password));
    DecodeEncodeRoundTrip(ssid);
    DecodeEncodeRoundTrip(password);
    CStrWithoutNul(ssid);
    CStrWithoutNul(password);
  }

  /** A field's raw value is a piece of the text, so it holds no NUL when the text holds none. */
  lemma FieldTextWithoutNul(text: string, key: string, cap: nat)
    requires forall k :: 0 <= k < |text| ==> text[k] != '\0'
    ensures FieldText(text, key, cap).Some? ==>
      forall k :: 0 <= k < |FieldText(text, key, cap).value| ==> FieldText(text, key, cap).value[k] != '\0'
  {
    var i := FindFrom(text, key, 0);
    if i.Some? {
      var v := FieldText(text, key, cap).value;
      forall k | 0 <= k < |v|
        ensures v[k] != '\0'
      {
        assert v[k] == text[i.value + |key| + k];
      }
    }
  }

  /** The C string of s followed by a NUL is the C string of s. */
  lemma {:induction false} CStrTerminated(s: seq<char>)
    ensures CStr(s + ['\0']) == CStr(s)
  {
    if |s| > 0 && s[0] != '\0' {
      assert (s + ['\0'])[1..] == s[1..] + ['\0'];
      CStrTerminated(s[1..]);
    }
  }

  /** The C string a buffer holds, given a NUL inside it. */
  method CString(a: array<char>, bound: nat) returns (s: string)
    requires bound < a.Length && a[bound] == '\0'
    ensures s == CStr(a[..bound + 1])
  {
    var n := StrLen(a, bound);
    CStrAt(a[..bound + 1], n);
    s := a[..n];
  }

  /**
   * One field of the form: strstr for the key, strchr for '&', strncpy of at
   * most size - 1 characters into a zeroed buffer, url_decode there, and the
   * C string the buffer then holds.
   */
  method ReadField(text: string, key: string, size: nat) returns (value: string)
    requires size > 0
    requires forall k :: 0 <= k < |text| ==> text[k] != '\0'
    ensures value == FieldValue(text, key, size - 1)
  {
    var field := new char[size](_ => '\0');
    var raw := FieldText(text, key, size - 1);
    if raw.None? {
      return [];
    }
    var v := raw.value;
    FieldTextWithoutNul(text, key, size - 1);
    forall i | 0 <= i < |v| {
      field[i] := v[i];
    }
    assert field[..|v|] == v;
    var n := UrlDecode(field, |v|);
    value := CString(field, n);
    assert field[..n + 1] == UrlDecoded(v) + ['\0'];
    CStrTerminated(UrlDecoded(v));
  }

  /** save_post_handler: one receive into a 200-byte buffer, the two fields, the empty-SSID check. */
  method SavePostHandler(body: seq<char>, recvResult: int) returns (outcome: PostOutcome)
    requires recvResult < ContentSize
    requires recvResult > 0 ==> recvResult <= |body|
    ensures outcome == PostSpec(body, recvResult)
  {
    if recvResult <= 0 {
      if recvResult == SockErrTimeout {
        return Timeout408;
      }
      return RecvFailed;
    }
    var content := new char[ContentSize];
    forall i | 0 <= i < recvResult {
      content[i] := body[i];
    }
    content[recvResult] := '\0';
    assert content[..recvResult + 1] == body[..recvResult] + ['\0'];
    var text := CString(content, recvResult);
    CStrTerminated(body[..recvResult]);
    var ssid := ReadField(text, SsidKey, MaxSsidLen);
    var password := ReadField(text, PasswordKey, MaxPasswordLen);
    if |ssid| > 0 {
      outcome := Saved(ssid, password);
    } else {
      outcome := SsidRequired;
    }
  }

  // ---------------------------------------------------------------------
  // Reconnect policy
  // ---------------------------------------------------------------------

  /** The handler's counters: retries used, and the failure and connected bits of the event group. */
  datatype Retry = Retry(retryNum: nat, failed: bool, connected: bool)

  /** Station events the handler reacts to. */
  datatype Event = Disconnected | GotIp

  /** event_handler for one event: whether it calls esp_wifi_connect, and the counters after. */
  function OnEvent(r: Retry, e: Event): (bool, Retry)
  {
    match e
    case Disconnected =>
      if r.retryNum < MaxRetry then (true, r.(retryNum := r.retryNum + 1))
      else (false, r.(failed := true))
    case GotIp => (false, r.(retryNum := 0, connected := true))
  }

  /** The counters after a run of events, and how many reconnects the run asked for. */
  function RunEvents(r: Retry, es: seq<Event>): (Retry, nat)
    decreases |es|
  {
    if |es| == 0 then (r, 0)
    else
      var (reconnect, r1) := OnEvent(r, es[0]);
      var (rn, n) := RunEvents(r1, es[1..]);
      (rn, n + (if reconnect then 1 else 0))
  }

  /** A run of n disconnects and nothing else. */
  function Disconnects(n: nat): (r: seq<Event>)
    ensures |r| == n && forall k :: 0 <= k < n ==> r[k] == Disconnected
  {
    if n == 0 then [] else [Disconnected] + Disconnects(n - 1)
  }

  /** From retryNum = used, n disconnects reconnect min(n, MaxRetry - used) times, and the failure bit is raised iff they exceed that. */
  lemma {:induction false} DisconnectsExhaustRetries(used: nat, failed: bool, connected: bool, n: nat)
    requires used <= MaxRetry
    ensures RunEvents(Retry(used, failed, connected), Disconnects(n)).1 == Min(n, MaxRetry - used)
    ensures RunEvents(Retry(used, failed, connected), Disconnects(n)).0.failed <==> (failed || n > MaxRetry - used)
    ensures RunEvents(Retry(used, failed, connected), Disconnects(n)).0.retryNum == Min(used + n, MaxRetry)
    decreases n
  {
    if n > 0 {
      assert Disconnects(n)[1..] == Disconnects(n - 1);
      if used < MaxRetry {
        DisconnectsExhaustRetries(used + 1, failed, connected, n - 1);
      } else {
        DisconnectsExhaustRetries(used, true, connected, n - 1);
      }
    }
  }

  /** Getting an address gives the next outage the full number of retries again. */
  lemma GotIpRestoresRetries(r: Retry)
    ensures OnEvent(r, GotIp).1.retryNum == 0 && OnEvent(r, GotIp).1.connected
    ensures OnEvent(OnEvent(r, GotIp).1, Disconnected).0
  {
  }

  /** The station event handler's static state. */
  class StationEvents {
    var retryNum: nat
    var failed: bool
    var connected: bool

    function State(): Retry
      reads this
    {
      Retry(retryNum, failed, connected)
    }

    constructor ()
      ensures State() == Retry(0, false, false)
    {
      retryNum := 0;
      failed := false;
      connected := false;
    }

    /** The WIFI_EVENT_STA_DISCONNECTED branch. */
    method OnDisconnected() returns (reconnect: bool)
      modifies this
      ensures (reconnect, State()) == OnEvent(old(State()), Disconnected)
    {
      if retryNum < MaxRetry {
        reconnect := true;
        retryNum := retryNum + 1;
      } else {
        reconnect := false;
        failed := true;
      }
    }

    /** The IP_EVENT_STA_GOT_IP branch. */
    method OnGotIp()
      modifies this
      ensures State() == OnEvent(old(State()), GotIp).1
    {
      retryNum := 0;
      connected := true;
    }
  }
}
