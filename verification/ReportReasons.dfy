/**
 * Reason codes of abuse reports (src/api/src/services/abuse_report_service.rs): their
 * normal form, and the severity that decides about automatic quarantine.
 */
module ReportReasons {

  // ---------------------------------------------------------------- codes

  const CSAM := "CHILD_SEXUAL_ABUSE_MATERIAL"
  const MINOR_EXPLOITATION := "MINOR_SEXUAL_EXPLOITATION"

  const ALLOWED: seq<string> := [
    "PORNOGRAPHY",
    CSAM,
    MINOR_EXPLOITATION,
    "RAPE_GLORIFICATION",
    "PEDOPHILIC_CONTENT",
    "ZOOPHILIA_OR_BESTIALITY",
    "NECROPHILIA",
    "EXPLICIT_SEXUAL_CONTENT",
    "ILLEGAL_SUBSTANCE_PROMOTION",
    "MALICIOUS_OR_MANIPULATIVE",
    "GRAPHIC_OR_DISTURBING",
    "MURDER_OR_SERIOUS_INJURY",
    "CORPSE_CONTENT",
    "NSFW_MISTAGGED",
    "HATE_OR_RACISM",
    "OTHER"
  ]

  const SEVERE: seq<string> := [
    CSAM,
    MINOR_EXPLOITATION,
    "RAPE_GLORIFICATION",
    "PEDOPHILIC_CONTENT",
    "ZOOPHILIA_OR_BESTIALITY",
    "NECROPHILIA",
    "MURDER_OR_SERIOUS_INJURY",
    "GRAPHIC_OR_DISTURBING",
    "CORPSE_CONTENT"
  ]

  function Weight(code: string): nat {
    if code == CSAM || code == MINOR_EXPLOITATION then 100
    else if code == "RAPE_GLORIFICATION" || code == "PEDOPHILIC_CONTENT" then 95
    else if code == "ZOOPHILIA_OR_BESTIALITY" || code == "NECROPHILIA" then 90
    else if code == "MURDER_OR_SERIOUS_INJURY" || code == "CORPSE_CONTENT" then 85
    else if code == "GRAPHIC_OR_DISTURBING" then 75
    else if code == "PORNOGRAPHY" || code == "EXPLICIT_SEXUAL_CONTENT" then 70
    else if code == "ILLEGAL_SUBSTANCE_PROMOTION" || code == "MALICIOUS_OR_MANIPULATIVE" then 65
    else if code == "HATE_OR_RACISM" then 60
    else if code == "NSFW_MISTAGGED" then 40
    else 30
  }

  /** The greatest of some weights, or zero of none. */
  function Top(weights: seq<nat>): nat {
    if weights == [] then 0
    else
      var rest := Top(weights[1..]);
      if weights[0] > rest then weights[0] else rest
  }

  function Severity(codes: seq<string>): nat {
    Top(seq(|codes|, i requires 0 <= i < |codes| => Weight(codes[i])))
  }

  predicate Immediate(codes: seq<string>) {
    CSAM in codes || MINOR_EXPLOITATION in codes
  }

  predicate HasSevere(codes: seq<string>) {
    exists i | 0 <= i < |codes| :: codes[i] in SEVERE
  }

  lemma {:induction false} TopReaches(weights: seq<nat>, bound: nat)
    requires bound > 0
    ensures Top(weights) >= bound <==> exists i | 0 <= i < |weights| :: weights[i] >= bound
  {
    if weights != [] {
      TopReaches(weights[1..], bound);
      assert forall i | 0 < i < |weights| :: weights[i] == weights[1..][i - 1];
      assert forall i | 0 <= i < |weights[1..]| :: weights[1..][i] == weights[i + 1];
    }
  }

  lemma WeightOfSevere(code: string)
    ensures code in SEVERE <==> Weight(code) >= 75
    ensures code == CSAM || code == MINOR_EXPLOITATION <==> Weight(code) >= 100
  {
    assert |SEVERE| == 9;
    assert SEVERE[0] == CSAM && SEVERE[1] == MINOR_EXPLOITATION && SEVERE[2] == "RAPE_GLORIFICATION";
    assert SEVERE[3] == "PEDOPHILIC_CONTENT" && SEVERE[4] == "ZOOPHILIA_OR_BESTIALITY" && SEVERE[5] == "NECROPHILIA";
    assert SEVERE[6] == "MURDER_OR_SERIOUS_INJURY" && SEVERE[7] == "GRAPHIC_OR_DISTURBING"
          && SEVERE[8] == "CORPSE_CONTENT";
  }

  /** The three verdicts on a list of codes agree with its score. */
  lemma ScoreDecides(codes: seq<string>)
    ensures HasSevere(codes) <==> Severity(codes) >= 75
    ensures Immediate(codes) <==> Severity(codes) >= 100
    ensures Immediate(codes) ==> HasSevere(codes)
  {
    var weights := seq(|codes|, i requires 0 <= i < |codes| => Weight(codes[i]));
    TopReaches(weights, 75);
    TopReaches(weights, 100);
    forall i | 0 <= i < |codes|
      ensures codes[i] in SEVERE <==> weights[i] >= 75
      ensures codes[i] == CSAM || codes[i] == MINOR_EXPLOITATION <==> weights[i] >= 100
    {
      WeightOfSevere(codes[i]);
    }
  }

  // ---------------------------------------------------------------- normal form

  /** Unicode White_Space, which `trim` removes. */
  predicate IsSpace(c: char) {
    var u := c as int;
    || 0x9 <= u <= 0xD || u == 0x20 || u == 0x85 || u == 0xA0 || u == 0x1680
    || 0x2000 <= u <= 0x200A || u == 0x2028 || u == 0x2029 || u == 0x202F || u == 0x205F || u == 0x3000
  }

  function TrimStart(s: string): string {
    if s != "" && IsSpace(s[0]) then TrimStart(s[1..]) else s
  }

  function TrimEnd(s: string): string {
    if s != "" && IsSpace(s[|s| - 1]) then TrimEnd(s[..|s| - 1]) else s
  }

  function UpperChar(c: char): char {
    if 'a' <= c <= 'z' then c - 'a' + 'A' else c
  }

  function Upper(s: string): string {
    seq(|s|, i requires 0 <= i < |s| => UpperChar(s[i]))
  }

  function Normal(raw: string): string {
    Upper(TrimEnd(TrimStart(raw)))
  }

  predicate Trimmed(s: string) {
    s == "" || (!IsSpace(s[0]) && !IsSpace(s[|s| - 1]))
  }

  lemma {:induction false} TrimEndTrims(s: string)
    requires s == "" || !IsSpace(s[0])
    ensures Trimmed(TrimEnd(s))
  {
    if s != "" && IsSpace(s[|s| - 1]) {
      TrimEndTrims(s[..|s| - 1]);
    }
  }

  lemma {:induction false} TrimStartTrims(s: string)
    ensures var t := TrimStart(s); t == "" || !IsSpace(t[0])
  {
    if s != "" && IsSpace(s[0]) {
      TrimStartTrims(s[1..]);
    }
  }

  /** Normalizing a normalized code changes nothing. */
  lemma NormalIsStable(raw: string)
    ensures Normal(Normal(raw)) == Normal(raw)
  {
    TrimStartTrims(raw);
    TrimEndTrims(TrimStart(raw));
    var code := Normal(raw);
    assert Trimmed(code);
    assert TrimEnd(TrimStart(code)) == code;
    assert Upper(code) == code;
  }

  lemma {:induction false} TrimStartDrops(s: string) returns (i: nat)
    ensures i <= |s| && TrimStart(s) == s[i..] && forall k | 0 <= k < i :: IsSpace(s[k])
  {
    i := 0;
    if s != "" && IsSpace(s[0]) {
      var j := TrimStartDrops(s[1..]);
      i := j + 1;
      assert s[1..][j..] == s[i..];
      assert forall k | 0 < k < i :: s[k] == s[1..][k - 1];
    }
  }

  lemma {:induction false} TrimEndDrops(s: string) returns (j: nat)
    ensures j <= |s| && TrimEnd(s) == s[..j] && forall k | j <= k < |s| :: IsSpace(s[k])
  {
    j := |s|;
    if s != "" && IsSpace(s[|s| - 1]) {
      j := TrimEndDrops(s[..|s| - 1]);
    }
  }

  /** The normal form of a code is what is left between its surrounding blanks, with ASCII
      letters in upper case. */
  lemma NormalIsUpperCore(raw: string) returns (i: nat, j: nat)
    ensures i <= j <= |raw| && Trimmed(raw[i..j])
    ensures forall k | 0 <= k < i || j <= k < |raw| :: IsSpace(raw[k])
    ensures |Normal(raw)| == j - i
    ensures forall k | 0 <= k < j - i ::
              Normal(raw)[k] == if 'a' <= raw[i + k] <= 'z' then raw[i + k] - ' ' else raw[i + k]
  {
    i := TrimStartDrops(raw);
    var length := TrimEndDrops(TrimStart(raw));
    j := i + length;
    TrimStartTrims(raw);
    TrimEndTrims(TrimStart(raw));
    assert raw[i..][..length] == raw[i..j];
    assert forall k | j <= k < |raw| :: raw[k] == raw[i..][k - i];
  }

  /** The order of strings. */
  predicate Before(a: string, b: string) {
    b != "" && (a == "" || a[0] < b[0] || (a[0] == b[0] && Before(a[1..], b[1..])))
  }

  lemma {:induction false} BeforeIsTransitive(a: string, b: string, c: string)
    requires Before(a, b) && Before(b, c)
    ensures Before(a, c)
  {
    if a != "" && a[0] == b[0] && b[0] == c[0] {
      BeforeIsTransitive(a[1..], b[1..], c[1..]);
    }
  }

  lemma {:induction false} BeforeIsTotal(a: string, b: string)
    ensures a == b || Before(a, b) || Before(b, a)
    ensures !(Before(a, b) && Before(b, a)) && !Before(a, a)
  {
    if a != "" && b != "" && a[0] == b[0] {
      BeforeIsTotal(a[1..], b[1..]);
      assert a == [a[0]] + a[1..] && b == [b[0]] + b[1..];
    }
    if a != "" {
      BeforeIsTotal(a[1..], a[1..]);
    }
  }

  /** It is the lexicographic order: `b` extends `a` or is greater where they first differ. */
  lemma {:induction false} BeforeIsLexicographic(a: string, b: string)
    ensures Before(a, b) <==>
              exists k: nat :: k <= |a| && k < |b| && a[..k] == b[..k] && (k == |a| || a[k] < b[k])
  {
    if a != "" && b != "" && a[0] == b[0] {
      BeforeIsLexicographic(a[1..], b[1..]);
      if Before(a, b) {
        var k: nat :| k <= |a[1..]| && k < |b[1..]| && a[1..][..k] == b[1..][..k]
              && (k == |a[1..]| || a[1..][k] < b[1..][k]);
        assert a[..k + 1] == [a[0]] + a[1..][..k] && b[..k + 1] == [b[0]] + b[1..][..k];
        assert k + 1 == |a| || a[k + 1] < b[k + 1];
      }
      if k: nat :| k <= |a| && k < |b| && a[..k] == b[..k] && (k == |a| || a[k] < b[k]) {
        assert k > 0;
        assert a[1..][..k - 1] == a[..k][1..] && b[1..][..k - 1] == b[..k][1..];
      }
    } else if a == "" || b == "" || a[0] < b[0] {
      assert a[..0] == b[..0];
    } else {
      forall k: nat | 0 < k <= |a| && k < |b| ensures a[..k] != b[..k] {
        assert a[..k][0] == a[0] && b[..k][0] == b[0];
      }
    }
  }

  ghost predicate Ascending(codes: seq<string>) {
    forall i, j | 0 <= i < j < |codes| :: Before(codes[i], codes[j])
  }

  /** Insertion into an ordered set, listed in order. */
  function Inserted(codes: seq<string>, code: string): seq<string> {
    if codes == [] then [code]
    else if codes[0] == code then codes
    else if Before(code, codes[0]) then [code] + codes
    else [codes[0]] + Inserted(codes[1..], code)
  }

  lemma {:induction false} InsertedIsOrdered(codes: seq<string>, code: string)
    requires Ascending(codes)
    ensures Ascending(Inserted(codes, code))
    ensures forall c :: c in Inserted(codes, code) <==> c in codes || c == code
  {
    if codes == [] || codes[0] == code {
    } else if Before(code, codes[0]) {
      forall j | 0 < j < |codes| ensures Before(code, codes[j]) {
        BeforeIsTransitive(code, codes[0], codes[j]);
      }
    } else {
      BeforeIsTotal(code, codes[0]);
      InsertedIsOrdered(codes[1..], code);
      var rest := Inserted(codes[1..], code);
      forall j | 0 <= j < |rest| ensures Before(codes[0], rest[j]) {
        assert rest[j] in rest;
        assert rest[j] in codes[1..] || rest[j] == code;
      }
      assert forall c :: c in codes <==> c == codes[0] || c in codes[1..];
    }
  }

  /** An ordered list is determined by its elements. */
  lemma {:induction false} OrderedIsCanonical(a: seq<string>, b: seq<string>)
    requires Ascending(a) && Ascending(b)
    requires forall c :: c in a <==> c in b
    ensures a == b
  {
    assert b != [] ==> b[0] in b;
    if a != [] {
      assert a[0] in b && b != [] && b[0] in a;
      BeforeIsTotal(a[0], b[0]);
      assert a[0] == b[0];
      forall c ensures c in a[1..] <==> c in b[1..] {
        BeforeIsTotal(a[0], a[0]);
        assert c in a <==> c in b;
      }
      OrderedIsCanonical(a[1..], b[1..]);
    }
  }

  datatype Fault = NoCodes | TooMany | EmptyCode | Unsupported(code: string)

  datatype Normalized = Codes(codes: seq<string>) | Rejected(fault: Fault)

  ghost predicate AllAllowed(raw: seq<string>, allowed: seq<string>) {
    forall i | 0 <= i < |raw| :: Normal(raw[i]) in allowed
  }

  ghost predicate FirstFault(raw: seq<string>, allowed: seq<string>, i: int, fault: Fault) {
    && 0 <= i < |raw|
    && AllAllowed(raw[..i], allowed)
    && Normal(raw[i]) !in allowed
    && fault == if Normal(raw[i]) == "" then EmptyCode else Unsupported(Normal(raw[i]))
  }

  ghost predicate Names(raw: seq<string>, code: string) {
    exists i | 0 <= i < |raw| :: Normal(raw[i]) == code
  }

  ghost predicate ListsThem(codes: seq<string>, raw: seq<string>) {
    forall c :: c in codes <==> Names(raw, c)
  }

  /** The codes of `raw`, once each and in order, unless there are none or too many or
      one is not allowed; the first such code is the one complained about. */
  method NormalizeReasonCodes(raw: seq<string>, max: nat) returns (r: Normalized)
    ensures r.Codes? <==> 0 < |raw| <= max && AllAllowed(raw, ALLOWED)
    ensures r.Codes? ==> Ascending(r.codes) && ListsThem(r.codes, raw)
    ensures r == Rejected(NoCodes) <==> raw == []
    ensures r == Rejected(TooMany) <==> raw != [] && |raw| > max
    ensures r.Rejected? && 0 < |raw| <= max ==> exists i :: FirstFault(raw, ALLOWED, i, r.fault)
  {
    if |raw| == 0 {
      return Rejected(NoCodes);
    }
    if |raw| > max {
      return Rejected(TooMany);
    }
    assert "" !in ALLOWED;
    r := Collect(raw, ALLOWED);
  }

  method Collect(raw: seq<string>, allowed: seq<string>) returns (r: Normalized)
    requires "" !in allowed
    ensures r.Codes? <==> AllAllowed(raw, allowed)
    ensures r.Codes? ==> Ascending(r.codes) && ListsThem(r.codes, raw)
    ensures r.Rejected? ==> !r.fault.NoCodes? && !r.fault.TooMany? && exists i :: FirstFault(raw, allowed, i, r.fault)
  {
    var unique: seq<string> := [];
    for i := 0 to |raw|
      invariant Ascending(unique)
      invariant AllAllowed(raw[..i], allowed)
      invariant ListsThem(unique, raw[..i])
    {
      var code := Normal(raw[i]);
      if code == "" {
        assert FirstFault(raw, allowed, i, EmptyCode);
        return Rejected(EmptyCode);
      }
      if code !in allowed {
        assert FirstFault(raw, allowed, i, Unsupported(code));
        return Rejected(Unsupported(code));
      }
      ListsOneMore(unique, raw, i);
      unique := Inserted(unique, code);
    }
    assert raw[..|raw|] == raw;
    return Codes(unique);
  }

  lemma ListsOneMore(codes: seq<string>, raw: seq<string>, i: nat)
    requires i < |raw| && Ascending(codes) && ListsThem(codes, raw[..i])
    ensures Ascending(Inserted(codes, Normal(raw[i]))) && ListsThem(Inserted(codes, Normal(raw[i])), raw[..i + 1])
  {
    InsertedIsOrdered(codes, Normal(raw[i]));
    assert raw[..i + 1] == raw[..i] + [raw[i]];
    assert raw[..i + 1][i] == raw[i];
    assert forall j | 0 <= j < i :: raw[..i + 1][j] == raw[..i][j];
  }

  /** The outcome depends on the set of codes only: order, case, surrounding blanks and
      repetitions do not matter. */
  lemma SameCodesSameList(raw: seq<string>, codes: seq<string>, raw': seq<string>, codes': seq<string>)
    requires Ascending(codes) && ListsThem(codes, raw) && Ascending(codes') && ListsThem(codes', raw')
    requires forall c :: Names(raw, c) <==> Names(raw', c)
    ensures codes == codes'
  {
    OrderedIsCanonical(codes, codes');
  }
}
