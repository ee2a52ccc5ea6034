/**
 * Request construction: the search parameter names of api/index.js:8-16,
 * `urlParams` of api/index.js:18-21, which appends the
 * application/x-www-form-urlencoded serialization (WHATWG URL Standard,
 * section 5.2, "application/x-www-form-urlencoded serializing") of an
 * ordered parameter list to a base endpoint, and the per-iteration request
 * of api/index.js:74-78.
 */
module Query {
  import opened Wrappers

  /** The keys of `SEARCH_PARAMS`. */
  datatype SearchParam = Text | Size | Sort | SortType | User | After | Before

  /** The upstream name of each search parameter. */
  function Name(p: SearchParam): string {
    match p
    case Text => "q"
    case Size => "size"
    case Sort => "sort"
    case SortType => "sort_type"
    case User => "author"
    case After => "after"
    case Before => "before"
  }

  /** The parameter names are pairwise distinct, so no two parameters of a request collide. */
  lemma NamesDistinct(p: SearchParam, q: SearchParam)
    ensures Name(p) == Name(q) <==> p == q
  {
  }

  /** The base endpoint of the comment search. */
  const CommentsApi: string := "https://api.pullpush.io/reddit/search/comment/?"

  /** The randomized page size of api/index.js:75: a whole number from 50 to 59. */
  type PageSize = n: int | 50 <= n <= 59 witness 50

  /** The characters the urlencoded serializer leaves as they are. */
  predicate Unreserved(c: char) {
    ('a' <= c <= 'z') || ('A' <= c <= 'Z') || ('0' <= c <= '9') || c == '*' || c == '-' || c == '.' || c == '_'
  }

  predicate AllUnreserved(s: string) {
    forall i :: 0 <= i < |s| ==> Unreserved(s[i])
  }

  predicate IsAscii(s: string) {
    forall i :: 0 <= i < |s| ==> s[i] as int < 128
  }

  /** A hexadecimal digit of either case; the serializer writes only upper case, the parser reads both. */
  predicate IsHexDigit(c: char) {
    ('0' <= c <= '9') || ('A' <= c <= 'F') || ('a' <= c <= 'f')
  }

  function HexDigit(d: int): (c: char)
    requires 0 <= d < 16
    ensures IsHexDigit(c) && Unreserved(c)
  {
    if d < 10 then ('0' as int + d) as char else ('A' as int + d - 10) as char
  }

  function HexValue(c: char): (d: int)
    requires IsHexDigit(c)
    ensures 0 <= d < 16
  {
    if c <= '9' then c as int - '0' as int
    else if c <= 'F' then c as int - 'A' as int + 10
    else c as int - 'a' as int + 10
  }

  lemma HexRoundTrip(d: int)
    requires 0 <= d < 16
    ensures HexValue(HexDigit(d)) == d
  {
  }

  /** Lower- and upper-case digits read as the same value. */
  lemma HexCaseInsensitive(d: int)
    requires 10 <= d < 16
    ensures HexValue(('a' as int + d - 10) as char) == HexValue(HexDigit(d)) == d
  {
  }

  predicate IsByte(b: int) { 0 <= b < 256 }

  /** The UTF-8 encoding of a Unicode scalar value. */
  function Utf8(c: char): (bytes: seq<int>)
    ensures 1 <= |bytes| <= 4
    ensures forall i :: 0 <= i < |bytes| ==> IsByte(bytes[i])
    ensures |bytes| == 1 <==> c as int < 128
    ensures |bytes| == 1 ==> bytes[0] == c as int
  {
    var cp := c as int;
    if cp < 0x80 then [cp]
    else if cp < 0x800 then [0xC0 + cp / 64, 0x80 + cp % 64]
    else if cp < 0x10000 then [0xE0 + cp / 4096, 0x80 + (cp / 64) % 64, 0x80 + cp % 64]
    else [0xF0 + cp / 262144, 0x80 + (cp / 4096) % 64, 0x80 + (cp / 64) % 64, 0x80 + cp % 64]
  }

  /** Each byte as `%` and two upper-case hexadecimal digits. */
  function PercentEncode(bytes: seq<int>): (s: string)
    requires forall i :: 0 <= i < |bytes| ==> IsByte(bytes[i])
    ensures |s| == 3 * |bytes|
    ensures forall i :: 0 <= i < |s| ==> Unreserved(s[i]) || s[i] == '%'
  {
    if bytes == [] then []
    else
      var b := bytes[0];
      assert IsByte(b);
      assert b / 16 < 16;
      ['%', HexDigit(b / 16), HexDigit(b % 16)] + PercentEncode(bytes[1..])
  }

  /** One code point of a name or value: unreserved as is, space as `+`, anything else percent-encoded. */
  function EncodeChar(c: char): (s: string)
    ensures |s| >= 1
    ensures forall i :: 0 <= i < |s| ==> Unreserved(s[i]) || s[i] == '%' || s[i] == '+'
    ensures s == [c] <==> Unreserved(c)
  {
    if Unreserved(c) then [c]
    else if c == ' ' then "+"
    else PercentEncode(Utf8(c))
  }

  /** The urlencoded byte serializer applied to a whole name or value. */
  function FormEncode(s: string): (t: string)
    ensures |t| >= |s|
    ensures forall i :: 0 <= i < |t| ==> Unreserved(t[i]) || t[i] == '%' || t[i] == '+'
  {
    if s == [] then [] else EncodeChar(s[0]) + FormEncode(s[1..])
  }

  function EncodePair(p: (string, string)): string {
    FormEncode(p.0) + "=" + FormEncode(p.1)
  }

  /** The serializer: the encoded `name=value` pairs in order, joined by `&`. */
  function Serialize(pairs: seq<(string, string)>): string {
    if pairs == [] then ""
    else if |pairs| == 1 then EncodePair(pairs[0])
    else EncodePair(pairs[0]) + "&" + Serialize(pairs[1..])
  }

  /** `urlParams(url, params)`. */
  function UrlParams(url: string, params: seq<(string, string)>): string {
    url + Serialize(params)
  }

  /** A non-negative integer in decimal, as Number's `toString` writes it. */
  function Digits(n: nat): (s: string)
    ensures |s| >= 1
    ensures forall i :: 0 <= i < |s| ==> '0' <= s[i] <= '9'
    decreases n
  {
    if n < 10 then [('0' as int + n) as char] else Digits(n / 10) + [('0' as int + n % 10) as char]
  }

  /** An integer in decimal, with a leading `-` when negative. */
  function Decimal(n: int): string {
    if n < 0 then "-" + Digits(-n) else Digits(n)
  }

  /** Reads a non-empty run of decimal digits. */
  function DigitsValue(s: string): Option<nat>
    decreases |s|
  {
    if s == [] || !('0' <= s[|s| - 1] <= '9') then None
    else
      var d := s[|s| - 1] as int - '0' as int;
      if |s| == 1 then Some(d)
      else match DigitsValue(s[..|s| - 1])
        case None => None
        case Some(v) => Some(v * 10 + d)
  }

  /** Reads back an optional `-` followed by at least one decimal digit. */
  function ParseDecimal(s: string): Option<int> {
    var digits := if |s| > 0 && s[0] == '-' then s[1..] else s;
    match DigitsValue(digits)
    case None => None
    case Some(v) => if |s| > 0 && s[0] == '-' then Some(0 - v) else Some(v)
  }

  lemma {:induction false} DigitsRoundTrip(n: nat)
    ensures DigitsValue(Digits(n)) == Some(n)
    decreases n
  {
    if n >= 10 {
      DigitsRoundTrip(n / 10);
      var s := Digits(n);
      assert s[..|s| - 1] == Digits(n / 10);
    }
  }

  lemma NegativeRoundTrip(n: int)
    requires n < 0
    ensures ParseDecimal(Decimal(n)) == Some(n)
  {
    var d := Digits(-n);
    DigitsRoundTrip(-n);
    var s := Decimal(n);
    assert s == "-" + d;
    assert s[0] == '-' && s[1..] == d;
  }

  lemma NaturalRoundTrip(n: nat)
    ensures ParseDecimal(Decimal(n)) == Some(n as int)
  {
    var d := Digits(n);
    DigitsRoundTrip(n);
    assert Decimal(n) == d;
    assert '0' <= d[0] <= '9';
  }

  /** The decimal text of an integer reads back as that integer. */
  lemma DecimalRoundTrip(n: int)
    ensures ParseDecimal(Decimal(n)) == Some(n)
  {
    if n < 0 {
      NegativeRoundTrip(n);
    } else {
      NaturalRoundTrip(n);
    }
  }

  lemma DecimalUnreserved(n: int)
    ensures AllUnreserved(Decimal(n))
  {
  }

  /** The serializer changes a string exactly when the string holds a reserved character. */
  lemma {:induction false} FormEncodeIdentity(s: string)
    ensures FormEncode(s) == s <==> AllUnreserved(s)
  {
    if s != [] {
      FormEncodeIdentity(s[1..]);
      var head := EncodeChar(s[0]);
      var tail := FormEncode(s[1..]);
      if Unreserved(s[0]) {
        if AllUnreserved(s[1..]) {
          assert s == [s[0]] + s[1..];
        } else {
          assert tail != s[1..];
          assert FormEncode(s)[1..] == tail;
        }
      } else {
        if |head| == 1 {
          assert FormEncode(s)[0] == head[0] != s[0];
        } else {
          assert |FormEncode(s)| > |s|;
        }
      }
    }
  }

  // Reading a query string back, as the urlencoded parser does for ASCII text.

  /** Splits at every occurrence of `sep`. */
  function Split(s: string, sep: char): (parts: seq<string>)
    ensures |parts| >= 1
    decreases |s|
  {
    if s == [] then [""]
    else if s[0] == sep then [""] + Split(s[1..], sep)
    else var rest := Split(s[1..], sep); [[s[0]] + rest[0]] + rest[1..]
  }

  /** Splits at the first `=`; a sequence without one is a name with an empty value. */
  function SplitPair(s: string): (string, string)
    decreases |s|
  {
    if s == [] then ("", "")
    else if s[0] == '=' then ("", s[1..])
    else var p := SplitPair(s[1..]); ([s[0]] + p.0, p.1)
  }

  /** Undoes `+` and `%XX` escapes (either case); each escape yields the code point of its byte, without UTF-8 decoding. */
  function Decode(s: string): string
    decreases |s|
  {
    if s == [] then []
    else if s[0] == '+' then " " + Decode(s[1..])
    else if s[0] == '%' && |s| >= 3 && IsHexDigit(s[1]) && IsHexDigit(s[2]) then
      [(HexValue(s[1]) * 16 + HexValue(s[2])) as char] + Decode(s[3..])
    else [s[0]] + Decode(s[1..])
  }

  function DecodePairs(seqs: seq<string>): seq<(string, string)>
    decreases |seqs|
  {
    if seqs == [] then []
    else if seqs[0] == "" then DecodePairs(seqs[1..])
    else var p := SplitPair(seqs[0]); [(Decode(p.0), Decode(p.1))] + DecodePairs(seqs[1..])
  }

  /**
   * The steps of the urlencoded parser: split at `&`, skip empty sequences,
   * split each at the first `=`, decode. Percent-escapes stand for single
   * bytes and are not reassembled into multi-byte UTF-8 characters, so this
   * reads back exactly the ASCII output of the serializer.
   */
  function ParseQuery(s: string): seq<(string, string)> {
    DecodePairs(Split(s, '&'))
  }

  predicate Excludes(s: string, c: char) {
    forall i :: 0 <= i < |s| ==> s[i] != c
  }

  lemma {:induction false} SplitAfter(a: string, b: string, sep: char)
    requires Excludes(a, sep)
    ensures Split(a + [sep] + b, sep) == [a] + Split(b, sep)
    decreases |a|
  {
    if a == [] {
      assert a + [sep] + b == [sep] + b;
      assert ([sep] + b)[1..] == b;
    } else {
      assert (a + [sep] + b)[1..] == a[1..] + [sep] + b;
      SplitAfter(a[1..], b, sep);
      assert [a[0]] + a[1..] == a;
    }
  }

  lemma {:induction false} SplitWhole(a: string, sep: char)
    requires Excludes(a, sep)
    ensures Split(a, sep) == [a]
    decreases |a|
  {
    if a != [] {
      SplitWhole(a[1..], sep);
      assert [a[0]] + a[1..] == a;
    }
  }

  lemma {:induction false} SplitPairAfter(a: string, b: string)
    requires Excludes(a, '=')
    ensures SplitPair(a + "=" + b) == (a, b)
    decreases |a|
  {
    if a == [] {
      assert a + "=" + b == "=" + b;
      assert ("=" + b)[1..] == b;
    } else {
      assert (a + "=" + b)[1..] == a[1..] + "=" + b;
      SplitPairAfter(a[1..], b);
      assert [a[0]] + a[1..] == a;
    }
  }

  lemma DecodeChar(c: char, rest: string)
    requires c as int < 128
    ensures Decode(EncodeChar(c) + rest) == [c] + Decode(rest)
  {
    var e := EncodeChar(c);
    if Unreserved(c) {
      assert (e + rest)[1..] == rest;
    } else if c == ' ' {
      assert (e + rest)[1..] == rest;
    } else {
      var b := c as int;
      assert e == ['%', HexDigit(b / 16), HexDigit(b % 16)];
      HexRoundTrip(b / 16);
      HexRoundTrip(b % 16);
      assert (e + rest)[3..] == rest;
      assert (b / 16 * 16 + b % 16) as char == c;
    }
  }

  /** For ASCII text, decoding undoes the serializer. */
  lemma {:induction false} DecodeFormEncode(s: string)
    requires IsAscii(s)
    ensures Decode(FormEncode(s)) == s
    decreases |s|
  {
    if s != [] {
      DecodeChar(s[0], FormEncode(s[1..]));
      DecodeFormEncode(s[1..]);
      assert [s[0]] + s[1..] == s;
    }
  }

  lemma EncodedExcludes(s: string, c: char)
    requires forall i :: 0 <= i < |s| ==> Unreserved(s[i]) || s[i] == '%' || s[i] == '+'
    requires !Unreserved(c) && c != '%' && c != '+'
    ensures Excludes(s, c)
  {
  }

  lemma JoinExcludes(a: string, b: string, c: char)
    requires Excludes(a, c) && Excludes(b, c) && c != '='
    ensures Excludes(a + "=" + b, c)
  {
    var s := a + "=" + b;
    forall i | 0 <= i < |s| ensures s[i] != c {
      if i < |a| {
        assert s[i] == a[i];
      } else if i > |a| {
        assert s[i] == b[i - |a| - 1];
      }
    }
  }

  lemma EncodePairShape(p: (string, string))
    ensures Excludes(EncodePair(p), '&')
    ensures Excludes(EncodePair(p), '=') == false
    ensures Excludes(FormEncode(p.0), '=')
    ensures EncodePair(p) != ""
  {
    var a, b := FormEncode(p.0), FormEncode(p.1);
    EncodedExcludes(a, '&');
    EncodedExcludes(b, '&');
    EncodedExcludes(a, '=');
    JoinExcludes(a, b, '&');
    var s := a + "=" + b;
    assert s[|a|] == '=';
  }

  /** One serialized ASCII pair reads back as that pair. */
  lemma ParsePair(p: (string, string))
    requires IsAscii(p.0) && IsAscii(p.1)
    ensures DecodePairs([EncodePair(p)]) == [p]
  {
    EncodePairShape(p);
    SplitPairAfter(FormEncode(p.0), FormEncode(p.1));
    DecodeFormEncode(p.0);
    DecodeFormEncode(p.1);
    assert [EncodePair(p)][1..] == [];
  }

  lemma ParseSingle(p: (string, string))
    requires IsAscii(p.0) && IsAscii(p.1)
    ensures ParseQuery(Serialize([p])) == [p]
  {
    EncodePairShape(p);
    SplitWhole(EncodePair(p), '&');
    ParsePair(p);
  }

  /** A serialized ASCII pair followed by `&` and more text reads back as that pair, then the rest. */
  lemma ParsePairThen(p: (string, string), rest: string)
    requires IsAscii(p.0) && IsAscii(p.1)
    ensures ParseQuery(EncodePair(p) + "&" + rest) == [p] + ParseQuery(rest)
  {
    EncodePairShape(p);
    SplitPairAfter(FormEncode(p.0), FormEncode(p.1));
    DecodeFormEncode(p.0);
    DecodeFormEncode(p.1);
    SplitAfter(EncodePair(p), rest, '&');
    assert EncodePair(p) + "&" + rest == EncodePair(p) + ['&'] + rest;
  }

  lemma ParseCons(pairs: seq<(string, string)>)
    requires |pairs| >= 2 && IsAscii(pairs[0].0) && IsAscii(pairs[0].1)
    requires ParseQuery(Serialize(pairs[1..])) == pairs[1..]
    ensures ParseQuery(Serialize(pairs)) == pairs
  {
    ParsePairThen(pairs[0], Serialize(pairs[1..]));
    assert pairs == [pairs[0]] + pairs[1..];
  }

  /** Parsing a serialized ASCII parameter list gives back the list, names and values in order. */
  lemma {:induction false} ParseSerialize(pairs: seq<(string, string)>)
    requires forall i :: 0 <= i < |pairs| ==> IsAscii(pairs[i].0) && IsAscii(pairs[i].1)
    ensures ParseQuery(Serialize(pairs)) == pairs
    decreases |pairs|
  {
    if pairs == [] {
      assert Split("", '&') == [""];
    } else if |pairs| == 1 {
      ParseSingle(pairs[0]);
      assert pairs == [pairs[0]];
    } else {
      ParseSerialize(pairs[1..]);
      ParseCons(pairs);
    }
  }

  /** The serializer leaves a parameter list of unreserved names and values as literal `name=value` text. */
  lemma SerializeLiteral(pairs: seq<(string, string)>)
    requires forall i :: 0 <= i < |pairs| ==> AllUnreserved(pairs[i].0) && AllUnreserved(pairs[i].1)
    ensures forall i :: 0 <= i < |pairs| ==> EncodePair(pairs[i]) == pairs[i].0 + "=" + pairs[i].1
  {
    forall i | 0 <= i < |pairs| ensures EncodePair(pairs[i]) == pairs[i].0 + "=" + pairs[i].1 {
      FormEncodeIdentity(pairs[i].0);
      FormEncodeIdentity(pairs[i].1);
    }
  }

  /** The request one loop iteration sends: base endpoint, then `size`, `author`, `before`, in that order. */
  function LoopRequest(size: PageSize, username: string, before: int): string {
    UrlParams(CommentsApi, [(Name(Size), Decimal(size)), (Name(User), username), (Name(Before), Decimal(before))])
  }

  lemma SerializeCons(p: (string, string), rest: seq<(string, string)>)
    requires rest != []
    ensures Serialize([p] + rest) == EncodePair(p) + "&" + Serialize(rest)
  {
    assert ([p] + rest)[0] == p && ([p] + rest)[1..] == rest;
  }

  lemma Serialize3(p0: (string, string), p1: (string, string), p2: (string, string))
    ensures Serialize([p0, p1, p2]) == EncodePair(p0) + "&" + EncodePair(p1) + "&" + EncodePair(p2)
  {
    var e0, e1, e2 := EncodePair(p0), EncodePair(p1), EncodePair(p2);
    SerializeCons(p1, [p2]);
    assert [p1] + [p2] == [p1, p2];
    SerializeCons(p0, [p1, p2]);
    assert [p0] + [p1, p2] == [p0, p1, p2];
    JoinAssoc(e0, e1, e2);
  }

  lemma JoinAssoc(a: string, b: string, c: string)
    ensures a + "&" + (b + "&" + c) == a + "&" + b + "&" + c
  {
  }

  lemma LiteralPair(name: string, value: string)
    requires AllUnreserved(name) && AllUnreserved(value)
    ensures EncodePair((name, value)) == (name + "=") + value
  {
    FormEncodeIdentity(name);
    FormEncodeIdentity(value);
  }

  lemma Regroup(api: string, k1: string, v1: string, k2: string, v2: string, k3: string, v3: string)
    ensures api + ((k1 + v1) + "&" + (k2 + v2) + "&" + (k3 + v3))
         == api + k1 + v1 + ("&" + k2) + v2 + ("&" + k3) + v3
  {
  }

  /** The keys of a loop request as they appear in its query. */
  lemma LoopKeys()
    ensures Name(Size) + "=" == "size="
    ensures Name(User) + "=" == "author="
    ensures Name(Before) + "=" == "before="
    ensures "&" + "author=" == "&author="
    ensures "&" + "before=" == "&before="
  {
  }

  lemma NameUnreserved(p: SearchParam)
    ensures AllUnreserved(Name(p))
  {
  }

  lemma LoopQueryLiteral(size: PageSize, username: string, before: int)
    requires AllUnreserved(username)
    ensures Serialize([(Name(Size), Decimal(size)), (Name(User), username), (Name(Before), Decimal(before))])
         == (Name(Size) + "=" + Decimal(size)) + "&" + (Name(User) + "=" + username) + "&" + (Name(Before) + "=" + Decimal(before))
  {
    var d1, d2 := Decimal(size), Decimal(before);
    DecimalUnreserved(size);
    DecimalUnreserved(before);
    Serialize3((Name(Size), d1), (Name(User), username), (Name(Before), d2));
    NameUnreserved(Size);
    NameUnreserved(User);
    NameUnreserved(Before);
    LiteralPair(Name(Size), d1);
    LiteralPair(Name(User), username);
    LiteralPair(Name(Before), d2);
  }

  /**
   * For a username of unreserved characters the request is literally the
   * comments endpoint followed by `size=…&author=…&before=…`.
   */
  lemma LoopRequestLiteral(size: PageSize, username: string, before: int)
    requires AllUnreserved(username)
    ensures LoopRequest(size, username, before)
         == CommentsApi + "size=" + Decimal(size) + "&author=" + username + "&before=" + Decimal(before)
  {
    LoopQueryLiteral(size, username, before);
    LoopKeys();
    Regroup(CommentsApi, "size=", Decimal(size), "author=", username, "before=", Decimal(before));
  }

  /**
   * The query of a loop request reads back as exactly three parameters,
   * `size`, `author` = the username and `before`, whose values are the page
   * size and the cursor.
   */
  lemma LoopRequestParams(size: PageSize, username: string, before: int)
    requires IsAscii(username)
    ensures LoopRequest(size, username, before)[..|CommentsApi|] == CommentsApi
    ensures var q := ParseQuery(LoopRequest(size, username, before)[|CommentsApi|..]);
      && |q| == 3
      && q[0].0 == "size" && ParseDecimal(q[0].1) == Some(size as int)
      && q[1] == ("author", username)
      && q[2].0 == "before" && ParseDecimal(q[2].1) == Some(before)
  {
    var pairs := [(Name(Size), Decimal(size)), (Name(User), username), (Name(Before), Decimal(before))];
    DecimalUnreserved(size);
    DecimalUnreserved(before);
    assert forall i :: 0 <= i < |pairs| ==> IsAscii(pairs[i].0) && IsAscii(pairs[i].1);
    ParseSerialize(pairs);
    assert LoopRequest(size, username, before)[|CommentsApi|..] == Serialize(pairs);
    DecimalRoundTrip(size);
    DecimalRoundTrip(before);
  }
}
