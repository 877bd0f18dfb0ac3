/** The text tag-length-value records of the handshake and the feature list they carry
    (src/common/base.cpp and the feature negotiation of src/common/session.cpp). */
module StringTlv {

  const TAG_LEN: nat := 16
  const VAL_LEN: nat := 16
  const MIN_LEN: nat := 32

  type StringMap = map<string, string>

  // ------------------------------------------------------------ numbers and padding

  function Digit(d: nat): char
    requires d < 10
  {
    ('0' as int + d) as char
  }

  predicate IsDigit(c: char) { '0' <= c <= '9' }

  function DigitOf(c: char): nat
    requires IsDigit(c)
  {
    c as int - '0' as int
  }

  /** std::to_string */
  function Decimal(n: nat): (r: string)
    ensures |r| > 0
  {
    if n < 10 then [Digit(n)] else Decimal(n / 10) + [Digit(n % 10)]
  }

  function DigitsValue(s: string): nat
    requires forall i :: 0 <= i < |s| ==> IsDigit(s[i])
  {
    if s == "" then 0 else 10 * DigitsValue(s[..|s| - 1]) + DigitOf(s[|s| - 1])
  }

  /** The digits at the front. */
  function LeadingDigits(s: string): (r: string)
    ensures r <= s && forall i :: 0 <= i < |r| ==> IsDigit(r[i])
  {
    if s == "" || !IsDigit(s[0]) then "" else [s[0]] + LeadingDigits(s[1..])
  }

  function SkipWhite(s: string): string
  {
    if s != "" && s[0] in " \t\n\r\U{0B}\U{0C}" then SkipWhite(s[1..]) else s
  }

  /** atoi: white space, an optional sign, then digits; 0 if there are none. */
  function Atoi(text: string): int
  {
    var s := SkipWhite(text);
    if s != "" && s[0] == '-' then 0 - (DigitsValue(LeadingDigits(s[1..])) as int)
    else if s != "" && s[0] == '+' then DigitsValue(LeadingDigits(s[1..]))
    else DigitsValue(LeadingDigits(s))
  }

  lemma {:induction false} DecimalIsDigits(n: nat)
    ensures forall i :: 0 <= i < |Decimal(n)| ==> IsDigit(Decimal(n)[i])
    ensures DigitsValue(Decimal(n)) == n
  {
    if n >= 10 {
      DecimalIsDigits(n / 10);
      assert Decimal(n)[..|Decimal(n)| - 1] == Decimal(n / 10);
    }
  }

  lemma {:induction false} AllDigitsLead(s: string)
    requires forall i :: 0 <= i < |s| ==> IsDigit(s[i])
    ensures LeadingDigits(s) == s
  {
    if s != "" {
      AllDigitsLead(s[1..]);
    }
  }

  lemma AtoiDecimal(n: nat)
    ensures Atoi(Decimal(n)) == n
  {
    DecimalIsDigits(n);
    AllDigitsLead(Decimal(n));
    assert IsDigit(Decimal(n)[0]);
  }

  lemma {:induction false} SkipAll(w: string, s: string)
    requires forall i :: 0 <= i < |w| ==> w[i] == ' ' || w[i] == '\t' || w[i] == '\n' || w[i] == '\r'
    ensures SkipWhite(w + s) == SkipWhite(s)
    decreases |w|
  {
    if w == "" {
      assert w + s == s;
    } else {
      assert (w + s)[1..] == w[1..] + s;
      SkipAll(w[1..], s);
    }
  }

  lemma {:induction false} LeadingThen(d: string, t: string)
    requires (forall i :: 0 <= i < |d| ==> IsDigit(d[i])) && (t == "" || !IsDigit(t[0]))
    ensures LeadingDigits(d + t) == d
    decreases |d|
  {
    if d == "" {
      assert d + t == t;
    } else {
      assert (d + t)[1..] == d[1..] + t;
      LeadingThen(d[1..], t);
    }
  }

  /** atoi on blanks, a number with or without a sign, and anything that is no digit behind it. */
  lemma AtoiMeans(w: string, n: nat, t: string)
    requires forall i :: 0 <= i < |w| ==> w[i] == ' ' || w[i] == '\t' || w[i] == '\n' || w[i] == '\r'
    requires t == "" || !('0' <= t[0] <= '9')
    ensures Atoi(w + (Decimal(n) + t)) == n && Atoi(w + ("+" + (Decimal(n) + t))) == n && Atoi(w + ("-" + (Decimal(n) + t))) == 0 - (n as int)
  {
    var d := Decimal(n);
    DecimalIsDigits(n);
    LeadingThen(d, t);
    SkipAll(w, d + t);
    SkipAll(w, "+" + (d + t));
    SkipAll(w, "-" + (d + t));
    assert IsDigit(d[0]) && (d + t)[0] == d[0];
    assert ("+" + (d + t))[1..] == d + t && ("-" + (d + t))[1..] == d + t;
  }

  function Power10(k: nat): nat { if k == 0 then 1 else 10 * Power10(k - 1) }

  lemma {:induction false} DecimalLength(n: nat, k: nat)
    requires k > 0 && n < Power10(k)
    ensures |Decimal(n)| <= k
    decreases k
  {
    if n >= 10 {
      DecimalLength(n / 10, k - 1);
    }
  }

  function Spaces(n: nat): string { seq(n, _ => ' ') }

  /** Padding fills up; it does not cut. */
  function Pad(s: string, n: nat): string
  {
    if |s| < n then s + Spaces(n - |s|) else s
  }

  /** TrimSubString with " ": every blank goes, not only those at the ends. */
  function Trim(s: string): string
  {
    if s == "" then "" else (if s[0] == ' ' then "" else [s[0]]) + Trim(s[1..])
  }

  predicate BlankFree(s: string)
  {
    forall i :: 0 <= i < |s| ==> s[i] != ' '
  }

  /** Every blank goes and everything else stays, wherever they are. */
  lemma {:induction false} TrimJoin(a: string, b: string)
    ensures Trim(a + b) == Trim(a) + Trim(b)
    decreases |a|
  {
    if a == "" {
      assert a + b == b;
    } else {
      assert (a + b)[1..] == a[1..] + b;
      TrimJoin(a[1..], b);
    }
  }

  lemma TrimOne(c: char)
    ensures Trim([c]) == if c == ' ' then "" else [c]
  {
  }

  lemma {:induction false} TrimSpaces(n: nat)
    ensures Trim(Spaces(n)) == ""
  {
    if n > 0 {
      assert Spaces(n)[1..] == Spaces(n - 1);
      TrimSpaces(n - 1);
    }
  }

  lemma {:induction false} TrimPadded(s: string, n: nat)
    requires BlankFree(s)
    ensures Trim(s + Spaces(n)) == s
  {
    if s == "" {
      assert s + Spaces(n) == Spaces(n);
      TrimSpaces(n);
    } else {
      assert (s + Spaces(n))[1..] == s[1..] + Spaces(n);
      TrimPadded(s[1..], n);
    }
  }

  lemma TrimPad(s: string, n: nat)
    requires BlankFree(s)
    ensures Trim(Pad(s, n)) == s
  {
    TrimPadded(s, if |s| < n then n - |s| else 0);
    assert s + Spaces(0) == s;
  }

  /** The loop that erases one blank at a time. */
  method TrimSubString(str: string) returns (r: string)
    ensures r == Trim(str)
  {
    r := str;
    var pos := 0;
    assert str[..0] + Trim(str[0..]) == Trim(str);
    while pos < |r|
      invariant pos <= |r| && r[..pos] + Trim(r[pos..]) == Trim(str)
      decreases |r| - pos
    {
      TrimStep(r, pos);
      if r[pos] == ' ' {
        r := r[..pos] + r[pos + 1..];
      } else {
        pos := pos + 1;
      }
    }
    assert r[..pos] == r && Trim(r[pos..]) == "";
  }

  lemma TrimStep(r: string, pos: nat)
    requires pos < |r|
    ensures var q := if r[pos] == ' ' then r[..pos] + r[pos + 1..] else r;
      var next := if r[pos] == ' ' then pos else pos + 1;
      next <= |q| && q[..next] + Trim(q[next..]) == r[..pos] + Trim(r[pos..])
  {
    assert r[pos..][1..] == r[pos + 1..];
    if r[pos] == ' ' {
      var q := r[..pos] + r[pos + 1..];
      assert q[..pos] == r[..pos] && q[pos..] == r[pos + 1..];
    } else {
      assert r[..pos + 1] == r[..pos] + [r[pos]];
      assert r[..pos] + ([r[pos]] + Trim(r[pos + 1..])) == r[..pos] + [r[pos]] + Trim(r[pos + 1..]);
    }
  }

  // ------------------------------------------------------------ records

  function Record(tag: string, val: string): string
  {
    Pad(tag, TAG_LEN) + Pad(Decimal(|val|), VAL_LEN) + val
  }

  /** TlvAppend: an empty tag is refused. */
  function TlvAppend(tlv: string, tag: string, val: string): (bool, string)
  {
    if tag == "" then (false, tlv) else (true, tlv + Record(tag, val))
  }

  /** The parsing loop on the rest of the text: whether it succeeds, and the map when it stops. */
  function ParseRest(s: string, m: StringMap): (bool, StringMap)
    decreases |s|
  {
    if |s| < MIN_LEN then (true, m)
    else
      var tag, len := Trim(s[..TAG_LEN]), Atoi(Trim(s[TAG_LEN..MIN_LEN]));
      if len < 0 || |s| - MIN_LEN < len then (false, m)
      else ParseRest(s[MIN_LEN + len..], m[tag := s[MIN_LEN..MIN_LEN + len]])
  }

  function TlvToStringMap(s: string): (bool, StringMap)
  {
    if |s| < MIN_LEN then (false, map[]) else ParseRest(s, map[])
  }

  method ParseLoop(tlv: string) returns (ok: bool, tlvmap: StringMap)
    ensures (ok, tlvmap) == TlvToStringMap(tlv)
  {
    tlvmap := map[];
    if |tlv| < MIN_LEN {
      return false, tlvmap;
    }
    var rest := tlv;
    while |rest| >= MIN_LEN
      invariant ParseRest(rest, tlvmap) == ParseRest(tlv, map[])
      decreases |rest|
    {
      var tag := TrimSubString(rest[..TAG_LEN]);
      var vallen := TrimSubString(rest[TAG_LEN..MIN_LEN]);
      var len := Atoi(vallen);
      if len < 0 || |rest| - MIN_LEN < len {
        return false, tlvmap;
      }
      tlvmap := tlvmap[tag := rest[MIN_LEN..MIN_LEN + len]];
      rest := rest[MIN_LEN + len..];
    }
    ok := true;
  }

  datatype Pair = Pair(tag: string, val: string)

  /** A tag of 1 to 16 characters without blanks, and a value whose length an int can hold. */
  predicate Sendable(p: Pair)
  {
    0 < |p.tag| <= TAG_LEN && BlankFree(p.tag) && |p.val| <= 0x7FFF_FFFF
  }

  predicate AllSendable(ps: seq<Pair>)
  {
    forall i :: 0 <= i < |ps| ==> Sendable(ps[i])
  }

  function Records(ps: seq<Pair>): string
  {
    if ps == [] then "" else Record(ps[0].tag, ps[0].val) + Records(ps[1..])
  }

  function LastWins(ps: seq<Pair>, m: StringMap): StringMap
  {
    if ps == [] then m else LastWins(ps[1..], m[ps[0].tag := ps[0].val])
  }

  lemma RecordShape(p: Pair)
    requires Sendable(p)
    ensures var r := Record(p.tag, p.val);
      && |r| == MIN_LEN + |p.val| && r[MIN_LEN..] == p.val
      && Trim(r[..TAG_LEN]) == p.tag && Atoi(Trim(r[TAG_LEN..MIN_LEN])) == |p.val|
  {
    var r, n := Record(p.tag, p.val), |p.val|;
    assert Power10(4) == 10000 && Power10(8) == 10000 * Power10(4) && Power10(12) == 10000 * Power10(8);
    DecimalLength(n, 12);
    DecimalIsDigits(n);
    assert BlankFree(Decimal(n));
    assert r[..TAG_LEN] == Pad(p.tag, TAG_LEN) && r[TAG_LEN..MIN_LEN] == Pad(Decimal(n), VAL_LEN);
    TrimPad(p.tag, TAG_LEN);
    TrimPad(Decimal(n), VAL_LEN);
    AtoiDecimal(n);
  }

  lemma ParseRecord(p: Pair, rest: string, m: StringMap)
    requires Sendable(p)
    ensures ParseRest(Record(p.tag, p.val) + rest, m) == ParseRest(rest, m[p.tag := p.val])
  {
    RecordShape(p);
    var r := Record(p.tag, p.val);
    var s := r + rest;
    assert s[..TAG_LEN] == r[..TAG_LEN] && s[TAG_LEN..MIN_LEN] == r[TAG_LEN..MIN_LEN];
    assert s[MIN_LEN..MIN_LEN + |p.val|] == r[MIN_LEN..] && s[MIN_LEN + |p.val|..] == rest;
  }

  lemma {:induction false} ParseRecords(ps: seq<Pair>, m: StringMap)
    requires AllSendable(ps)
    ensures ParseRest(Records(ps), m) == (true, LastWins(ps, m))
    decreases |ps|
  {
    if ps != [] {
      ParseRecord(ps[0], Records(ps[1..]), m);
      ParseRecords(ps[1..], m[ps[0].tag := ps[0].val]);
    }
  }

  /** Records appended one after another read back as the map in which the last value of a tag wins. */
  lemma RecordsRoundTrip(ps: seq<Pair>)
    requires ps != [] && AllSendable(ps)
    ensures TlvToStringMap(Records(ps)) == (true, LastWins(ps, map[]))
  {
    RecordShape(ps[0]);
    ParseRecords(ps, map[]);
  }

  /** Appending to what was built so far is the same as building the longer list. */
  /** A record without a tag is refused, and nothing is appended. */
  lemma EmptyTag(tlv: string, val: string)
    ensures TlvAppend(tlv, "", val) == (false, tlv)
  {
  }

  /** The number a string of decimal digits writes. */
  function Worth(s: string): int
  {
    if s == "" then 0 else 10 * Worth(s[..|s| - 1]) + (s[|s| - 1] as int - '0' as int)
  }

  lemma {:induction false} DecimalWorth(n: nat)
    ensures Worth(Decimal(n)) == n && forall i :: 0 <= i < |Decimal(n)| ==> '0' <= Decimal(n)[i] <= '9'
  {
    if n >= 10 {
      DecimalWorth(n / 10);
      var d := Decimal(n);
      assert d[..|d| - 1] == Decimal(n / 10);
    } else {
      assert Decimal(n)[..0] == "";
    }
  }

  /** A record, character by character: the tag and the length in decimal, each filled with blanks to sixteen
      characters, and the value. */
  lemma RecordBytes(p: Pair)
    requires Sendable(p)
    ensures var r, k := Record(p.tag, p.val), |Decimal(|p.val|)|;
      && |r| == 32 + |p.val| && k <= 16 && r[..|p.tag|] == p.tag && (forall i :: |p.tag| <= i < 16 ==> r[i] == ' ')
      && (forall i :: 16 <= i < 16 + k ==> '0' <= r[i] <= '9') && Worth(r[16..16 + k]) == |p.val|
      && (forall i :: 16 + k <= i < 32 ==> r[i] == ' ') && r[32..] == p.val
  {
    var d := Decimal(|p.val|);
    DecimalWorth(|p.val|);
    assert Power10(5) == 100000 && Power10(10) == 100000 * Power10(5);
    DecimalLength(|p.val|, 10);
    PaddedPair(p.tag, d, p.val);
    assert forall i :: 0 <= i < |d| ==> Record(p.tag, p.val)[16 + i] == Record(p.tag, p.val)[16..16 + |d|][i] == d[i];
  }

  /** Two strings filled with blanks to sixteen characters each, and a third. */
  lemma PaddedPair(a: string, b: string, c: string)
    requires |a| <= 16 && |b| <= 16
    ensures var r := Pad(a, 16) + Pad(b, 16) + c;
      && |r| == 32 + |c| && r[..|a|] == a && (forall i :: |a| <= i < 16 ==> r[i] == ' ')
      && r[16..16 + |b|] == b && (forall i :: 16 + |b| <= i < 32 ==> r[i] == ' ') && r[32..] == c
  {
  }

  lemma {:induction false} ParseThen(ps: seq<Pair>, t: string, m: StringMap)
    requires AllSendable(ps)
    ensures ParseRest(Records(ps) + t, m) == ParseRest(t, LastWins(ps, m))
    decreases |ps|
  {
    if ps == [] {
      assert Records(ps) + t == t;
    } else {
      var r := Record(ps[0].tag, ps[0].val);
      assert Records(ps) + t == r + (Records(ps[1..]) + t);
      ParseRecord(ps[0], Records(ps[1..]) + t, m);
      ParseThen(ps[1..], t, m[ps[0].tag := ps[0].val]);
    }
  }

  lemma RecordsLong(ps: seq<Pair>)
    requires ps != [] && AllSendable(ps)
    ensures |Records(ps)| >= 32
  {
    RecordShape(ps[0]);
  }

  /** Fewer than 32 characters behind the last record are ignored. */
  lemma TailIgnored(ps: seq<Pair>, t: string)
    requires ps != [] && AllSendable(ps) && |t| < 32
    ensures TlvToStringMap(Records(ps) + t) == (true, LastWins(ps, map[]))
  {
    RecordsLong(ps);
    ParseThen(ps, t, map[]);
  }

  /** A last record cut in its value is an error; the records before it stay in the map. */
  lemma CutRecord(ps: seq<Pair>, p: Pair, k: nat)
    requires AllSendable(ps) && Sendable(p) && 32 <= k < |Record(p.tag, p.val)|
    ensures TlvToStringMap(Records(ps) + Record(p.tag, p.val)[..k]) == (false, LastWins(ps, map[]))
  {
    RecordShape(p);
    var r := Record(p.tag, p.val);
    var t := r[..k];
    assert t[..TAG_LEN] == r[..TAG_LEN] && t[TAG_LEN..MIN_LEN] == r[TAG_LEN..MIN_LEN];
    ParseThen(ps, t, map[]);
  }

  /** So is a negative length. */
  lemma NegativeLength(ps: seq<Pair>, s: string)
    requires AllSendable(ps) && |s| >= 32 && Atoi(Trim(s[16..32])) < 0
    ensures TlvToStringMap(Records(ps) + s) == (false, LastWins(ps, map[]))
  {
    ParseThen(ps, s, map[]);
  }

  lemma {:induction false} AppendIsSnoc(ps: seq<Pair>, p: Pair)
    requires p.tag != ""
    ensures TlvAppend(Records(ps), p.tag, p.val) == (true, Records(ps + [p]))
  {
    RecordsJoin(ps, [p]);
    assert Records([p]) == Record(p.tag, p.val) + Records([]);
    assert Record(p.tag, p.val) + "" == Record(p.tag, p.val);
  }

  lemma {:induction false} RecordsJoin(a: seq<Pair>, b: seq<Pair>)
    ensures Records(a + b) == Records(a) + Records(b)
  {
    if a == [] {
      assert a + b == b;
    } else {
      assert (a + b)[1..] == a[1..] + b;
      RecordsJoin(a[1..], b);
    }
  }

  lemma {:induction false} LastWinsAt(ps: seq<Pair>, m: StringMap, tag: string, k: nat)
    requires k < |ps| && ps[k].tag == tag && forall j :: k < j < |ps| ==> ps[j].tag != tag
    ensures tag in LastWins(ps, m) && LastWins(ps, m)[tag] == ps[k].val
    decreases |ps|
  {
    var m' := m[ps[0].tag := ps[0].val];
    if k > 0 {
      LastWinsAt(ps[1..], m', tag, k - 1);
    } else {
      LastWinsAbsent(ps[1..], m', tag);
    }
  }

  lemma {:induction false} LastWinsAbsent(ps: seq<Pair>, m: StringMap, tag: string)
    requires forall j :: 0 <= j < |ps| ==> ps[j].tag != tag
    ensures (tag in LastWins(ps, m) <==> tag in m) && (tag in m ==> LastWins(ps, m)[tag] == m[tag])
    decreases |ps|
  {
    if ps != [] {
      LastWinsAbsent(ps[1..], m[ps[0].tag := ps[0].val], tag);
    }
  }

  // ------------------------------------------------------------ feature lists

  /** string::find for one character, from a position on: where it stands, or the length of the string. */
  function FindFrom(s: string, c: char, p: nat): (k: nat)
    requires p <= |s|
    ensures p <= k <= |s|
    decreases |s| - p
  {
    if p == |s| || s[p] == c then p else FindFrom(s, c, p + 1)
  }

  /** The nonempty pieces between separators, from a position on. */
  function SplitFrom(s: string, c: char, p: nat): seq<string>
    requires p <= |s|
    decreases |s| - p
  {
    if p == |s| then []
    else
      var k := FindFrom(s, c, p);
      if k == |s| then [s[p..]]
      else if k == p then SplitFrom(s, c, k + 1)
      else [s[p..k]] + SplitFrom(s, c, k + 1)
  }

  function Split(s: string, c: char): seq<string> { SplitFrom(s, c, 0) }

  lemma {:induction false} FindFromAt(s: string, c: char, p: nat, k: nat)
    requires p <= k <= |s| && (k == |s| || s[k] == c) && forall i :: p <= i < k ==> s[i] != c
    ensures FindFrom(s, c, p) == k
    decreases k - p
  {
    if p < k {
      FindFromAt(s, c, p + 1, k);
    }
  }

  lemma JoinStrings(a: seq<string>, b: seq<string>, c: seq<string>)
    ensures a + (b + c) == a + b + c && a + [] == a && [] + a == a
  {
  }

  /** SplitString for a separator of one character: the search loop with its two positions. */
  method SplitString(origString: string, c: char) returns (resultStrings: seq<string>)
    ensures resultStrings == Split(origString, c)
  {
    resultStrings := [];
    var p1: nat, p2: nat := 0, FindFrom(origString, c, 0);
    JoinStrings(SplitFrom(origString, c, 0), [], []);
    while p2 < |origString|
      invariant p1 <= p2 <= |origString| && p2 == FindFrom(origString, c, p1)
      invariant resultStrings + SplitFrom(origString, c, p1) == SplitFrom(origString, c, 0)
      decreases |origString| - p1
    {
      p1, p2, resultStrings := SplitOne(origString, c, p1, p2, resultStrings);
    }
    SplitLast(origString, c, p1);
    JoinStrings(resultStrings, [], []);
    if p1 != |origString| {
      resultStrings := resultStrings + [origString[p1..]];
    }
  }

  lemma SplitLast(s: string, c: char, p: nat)
    requires p <= |s| && FindFrom(s, c, p) == |s|
    ensures SplitFrom(s, c, p) == if p == |s| then [] else [s[p..]]
  {
  }

  /** One turn of the loop: an empty piece is skipped, any other is kept. */
  method SplitOne(s: string, c: char, p1: nat, p2: nat, got: seq<string>) returns (q1: nat, q2: nat, got': seq<string>)
    requires p1 <= p2 < |s| && p2 == FindFrom(s, c, p1)
    ensures p1 < q1 <= |s| && q2 == FindFrom(s, c, q1) && got' + SplitFrom(s, c, q1) == got + SplitFrom(s, c, p1)
  {
    got' := got;
    if p2 == p1 {
      q1 := p1 + 1;
    } else {
      JoinStrings(got, [s[p1..p2]], SplitFrom(s, c, p2 + 1));
      got' := got + [s[p1..p2]];
      q1 := p2 + 1;
    }
    q2 := FindFrom(s, c, q1);
  }

  function Join(fs: seq<string>): string
  {
    if fs == [] then "" else if |fs| == 1 then fs[0] else fs[0] + "," + Join(fs[1..])
  }

  predicate CommaFree(fs: seq<string>)
  {
    forall i :: 0 <= i < |fs| ==> ',' !in fs[i]
  }

  function NonEmpty(fs: seq<string>): seq<string>
  {
    if fs == [] then [] else if fs[0] == "" then NonEmpty(fs[1..]) else [fs[0]] + NonEmpty(fs[1..])
  }

  /** What stands between two positions is the member of the list at hand, and a comma or the end follows. */
  lemma MemberFound(s: string, p: nat, f: string)
    requires p + |f| <= |s| && s[p..p + |f|] == f && ',' !in f && (p + |f| == |s| || s[p + |f|] == ',')
    ensures FindFrom(s, ',', p) == p + |f|
  {
    forall i | p <= i < p + |f| ensures s[i] != ',' {
      assert s[i] == s[p..p + |f|][i - p];
    }
    FindFromAt(s, ',', p, p + |f|);
  }

  lemma JoinedAt(s: string, p: nat, f: string, rest: string)
    requires p <= |s| && s[p..] == f + "," + rest
    ensures var k := p + |f|; k < |s| && s[p..k] == f && s[k] == ',' && s[k + 1..] == rest
  {
    assert s[p..][..|f|] == f && s[p..][|f|] == ',' && s[p..][|f| + 1..] == rest;
  }

  lemma FirstMember(s: string, p: nat, f: string)
    requires var k := p + |f|; k < |s| && s[p..k] == f && s[k] == ',' && ',' !in f
    ensures var rest := SplitFrom(s, ',', p + |f| + 1);
      SplitFrom(s, ',', p) == if f == "" then rest else [f] + rest
  {
    MemberFound(s, p, f);
  }

  lemma LastMember(s: string, p: nat, f: string)
    requires p <= |s| && s[p..] == f && ',' !in f
    ensures SplitFrom(s, ',', p) == if f == "" then [] else [f]
  {
    assert s[p..p + |f|] == f;
    MemberFound(s, p, f);
  }

  lemma {:induction false} SplitFromJoin(s: string, p: nat, fs: seq<string>)
    requires CommaFree(fs) && p <= |s| && s[p..] == Join(fs)
    ensures SplitFrom(s, ',', p) == NonEmpty(fs)
    decreases |fs|
  {
    if |fs| == 1 {
      LastMember(s, p, fs[0]);
      assert NonEmpty(fs[1..]) == [];
    } else if |fs| > 1 {
      var f, rest := fs[0], fs[1..];
      assert Join(fs) == f + "," + Join(rest);
      JoinedAt(s, p, f, Join(rest));
      SplitFromJoin(s, p + |f| + 1, rest);
      FirstMember(s, p, f);
      assert NonEmpty(fs) == if f == "" then NonEmpty(rest) else [f] + NonEmpty(rest);
    }
  }

  /** Splitting a joined list gives its nonempty members in order. */
  lemma SplitJoin(fs: seq<string>)
    requires CommaFree(fs)
    ensures Split(Join(fs), ',') == NonEmpty(fs)
  {
    assert Join(fs)[0..] == Join(fs);
    SplitFromJoin(Join(fs), 0, fs);
  }

  lemma {:induction false} InNonEmpty(fs: seq<string>, f: string)
    requires f != ""
    ensures f in NonEmpty(fs) <==> f in fs
  {
    if fs != [] {
      InNonEmpty(fs[1..], f);
      assert fs == [fs[0]] + fs[1..];
    }
  }

  /** FeatureToString, with its break before the last comma. */
  method FeatureToString(feature: seq<string>) returns (result: string)
    ensures result == Join(feature)
  {
    result := "";
    var i := 0;
    assert feature[0..] == feature;
    while i < |feature|
      invariant i <= |feature| && (i < |feature| ==> result + Join(feature[i..]) == Join(feature))
      invariant i == |feature| ==> result == Join(feature)
    {
      ghost var rest := feature[i..];
      assert rest[1..] == feature[i + 1..];
      result := result + feature[i];
      if i == |feature| - 1 {
        i := i + 1;
        break;
      }
      result := result + ",";
      i := i + 1;
    }
  }

  const TAG_SUPPORT_FEATURE := "supportfeatures"

  /** ParsePeerSupportFeatures: the flag it sets, if it sets one. */
  function PeerFlag(m: StringMap, feature: string, before: bool): bool
  {
    if TAG_SUPPORT_FEATURE in m then feature in Split(m[TAG_SUPPORT_FEATURE], ',') else before
  }

  /** The flag a peer ends up with is set exactly when the sender listed the feature, whatever other
      records stand before or behind the list in the handshake. */
  lemma HeartbeatNegotiated(ps: seq<Pair>, qs: seq<Pair>, features: seq<string>, feature: string, before: bool)
    requires CommaFree(features) && feature != "" && |Join(features)| <= 0x7FFF_FFFF
    requires AllSendable(ps) && AllSendable(qs) && forall j :: 0 <= j < |qs| ==> qs[j].tag != TAG_SUPPORT_FEATURE
    ensures var sent := TlvToStringMap(Records(ps + [Pair(TAG_SUPPORT_FEATURE, Join(features))] + qs));
      sent.0 && (PeerFlag(sent.1, feature, before) <==> feature in features)
  {
    var all := ps + [Pair(TAG_SUPPORT_FEATURE, Join(features))] + qs;
    assert all[|ps|] == Pair(TAG_SUPPORT_FEATURE, Join(features));
    assert forall j :: |ps| < j < |all| ==> all[j] == qs[j - |ps| - 1];
    assert AllSendable(all);
    RecordsRoundTrip(all);
    LastWinsAt(all, map[], TAG_SUPPORT_FEATURE, |ps|);
    SplitJoin(features);
    InNonEmpty(features, feature);
  }

  /** Without a list of features in the handshake the flag stays as it was. */
  lemma FeatureUnlisted(ps: seq<Pair>, feature: string, before: bool)
    requires ps != [] && AllSendable(ps) && forall j :: 0 <= j < |ps| ==> ps[j].tag != TAG_SUPPORT_FEATURE
    ensures var sent := TlvToStringMap(Records(ps)); sent.0 && PeerFlag(sent.1, feature, before) == before
  {
    RecordsRoundTrip(ps);
    LastWinsAbsent(ps, map[], TAG_SUPPORT_FEATURE);
  }
}
