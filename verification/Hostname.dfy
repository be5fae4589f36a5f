/** DNS host names as the lease registry canonicalises them. */
module Hostname {

  // ----- String operations -----

  predicate HasSuffix(s: string, t: string) {
    |t| <= |s| && s[|s| - |t|..] == t
  }

  function TrimSuffix(s: string, t: string): string {
    if HasSuffix(s, t) then s[..|s| - |t|] else s
  }

  /** Lower case of one character. Besides A-Z only the Kelvin sign and the dotted capital I
      have an ASCII lower case; every other character keeps a non-ASCII one, so it can
      never become part of a valid host name and is left alone here. */
  function LowerChar(c: char): char {
    if 'A' <= c <= 'Z' then (c as int + 32) as char
    else if c == '\U{212A}' then 'k'
    else if c == '\U{0130}' then 'i'
    else c
  }

  function ToLower(s: string): (r: string)
    ensures |r| == |s|
  {
    seq(|s|, i requires 0 <= i < |s| => LowerChar(s[i]))
  }

  predicate IsSpace(c: char) {
    c in {'\t', '\n', '\U{0B}', '\U{0C}', '\r', ' ', '\U{85}', '\U{A0}', '\U{1680}', '\U{2028}', '\U{2029}',
          '\U{202F}', '\U{205F}', '\U{3000}'} || '\U{2000}' <= c <= '\U{200A}'
  }

  function TrimSpace(s: string): string {
    if s == "" then s
    else if IsSpace(s[0]) then TrimSpace(s[1..])
    else if IsSpace(s[|s| - 1]) then TrimSpace(s[..|s| - 1])
    else s
  }

  /** The dot-separated labels of a name; never empty, as `strings.Split` promises. */
  function Split(s: string): (r: seq<string>)
    ensures |r| >= 1
    ensures |r| == 1 <==> '.' !in s
  {
    if s == "" then [""]
    else
      var rest := Split(s[1..]);
      if s[0] == '.' then [""] + rest else [[s[0]] + rest[0]] + rest[1..]
  }

  function Join(labels: seq<string>): string
    requires |labels| >= 1
  {
    if |labels| == 1 then labels[0] else labels[0] + "." + Join(labels[1..])
  }

  // ----- The model of hostname.go -----

  predicate LabelChar(c: char) {
    'a' <= c <= 'z' || '0' <= c <= '9' || c == '-'
  }

  predicate ValidLabel(text: string) {
    && 0 < |text| <= 63
    && text[0] != '-' && text[|text| - 1] != '-'
    && forall i :: 0 <= i < |text| ==> LabelChar(text[i])
  }

  predicate ValidDNSName(name: string) {
    && 0 < |name| <= 253
    && var labels := Split(name);
       forall i :: 0 <= i < |labels| ==> ValidLabel(labels[i])
  }

  function CanonicalDomain(domain: string): string {
    ToLower(TrimSuffix(TrimSpace(domain), "."))
  }

  /** The fully qualified lower-case form of `hostname` under `domain`, or "". */
  function NormalizeHostname(hostname: string, domain: string): (r: string)
    ensures r == "" || IsCanonical(r, domain)
    ensures IsCanonical(hostname, domain) ==> r == hostname
  {
    var d := CanonicalDomain(domain);
    var h := ToLower(TrimSuffix(hostname, "."));
    CanonicalIsStable(hostname, domain);
    if !ValidDNSName(d) || !ValidDNSName(h) then ""
    else
      var full := if '.' !in h then h + "." + d else h;
      if !HasSuffix(full, "." + d) || !ValidDNSName(full) then "" else full + "."
  }

  /** What a canonical host name is, independently of how one is computed: a valid name
      strictly below a valid domain, with the root dot. */
  predicate IsCanonical(name: string, domain: string) {
    var d := CanonicalDomain(domain);
    && ValidDNSName(d)
    && |name| > 1 && name[|name| - 1] == '.'
    && var n := name[..|name| - 1];
       ValidDNSName(n) && HasSuffix(n, "." + d)
  }

  /** Exactly what becomes of a name: the text itself, in lower case and with the root dot, if that is
      canonical; else, for a single label, the label below the domain if that is. */
  lemma NormalizeIff(hostname: string, domain: string, name: string)
    requires name != ""
    ensures var h := ToLower(TrimSuffix(hostname, "."));
            NormalizeHostname(hostname, domain) == name <==>
              IsCanonical(name, domain) && (name == h + "." || ('.' !in h && ValidDNSName(h) && name == h + "." + CanonicalDomain(domain) + "."))
  {
    hide ToLower, TrimSuffix, CanonicalDomain;
    var h, d := ToLower(TrimSuffix(hostname, ".")), CanonicalDomain(domain);
    assert (h + ".")[..|h|] == h;
    var full := h + "." + d;
    assert (full + ".")[..|full|] == full;
    if '.' !in h {
      NoDotInLabel(h, d);
    }
  }

  lemma NoDotInLabel(h: string, d: string)
    requires '.' !in h
    ensures !HasSuffix(h, "." + d)
  {
    var k := |h| - |"." + d|;
    assert 0 <= k ==> h[k] in h;
  }

  /** One label below a domain gives a host name that can be registered. */
  lemma OneLabelBelow(text: string, domain: string)
    requires ValidLabel(text) && ValidDNSName(domain) && |text| + |domain| < 253
    ensures IsCanonical(text + "." + domain + ".", domain)
  {
    var n := text + "." + domain;
    assert Split(n) == [text] + Split(domain) by {
      SplitLabel(text);
      SplitConcat(text, domain);
    }
    hide Split;
    ValidDomainIsCanonical(domain);
    hide CanonicalDomain, ValidLabel;
    assert (n + ".")[..|n|] == n;
    assert HasSuffix(n, "." + domain);
  }

  /** A valid label, in any case and with or without a final dot, becomes label, dot, domain, dot. */
  lemma SingleLabel(hostname: string, text: string, domain: string)
    requires ToLower(hostname) == text && ValidLabel(text) && ValidDNSName(domain) && |text| + |domain| < 253
    ensures NormalizeHostname(hostname, domain) == text + "." + domain + "."
    ensures NormalizeHostname(hostname + ".", domain) == text + "." + domain + "."
  {
    var name := text + "." + domain + ".";
    LowerKeepsDots(hostname);
    LabelIsName(text);
    assert TrimSuffix(hostname, ".") == hostname && TrimSuffix(hostname + ".", ".") == hostname;
    hide ToLower, CanonicalDomain, TrimSuffix, ValidDNSName, IsCanonical, NormalizeHostname;
    OneLabelBelow(text, domain);
    ValidDomainIsCanonical(domain);
    NormalizeIff(hostname, domain, name);
    NormalizeIff(hostname + ".", domain, name);
  }

  lemma LabelIsName(text: string)
    requires ValidLabel(text)
    ensures ValidDNSName(text) && '.' !in text
  {
    SplitLabel(text);
  }

  lemma LowerKeepsDots(s: string)
    ensures '.' in ToLower(s) <==> '.' in s
  {
    var r := ToLower(s);
    forall i | 0 <= i < |s| ensures r[i] == '.' <==> s[i] == '.' {
      assert r[i] == LowerChar(s[i]);
    }
  }

  // ----- Splitting and joining -----

  lemma {:induction false} SplitJoin(s: string)
    ensures Join(Split(s)) == s
  {
    if s != "" {
      SplitJoin(s[1..]);
      hide Join;
      JoinDot(Split(s[1..]));
      JoinChar(s[0], Split(s[1..]));
      assert s == [s[0]] + s[1..];
    } else {
      assert Join([""]) == "";
    }
  }

  lemma JoinMore(first: string, tail: seq<string>)
    ensures Join([first] + tail) == if tail == [] then first else first + "." + Join(tail)
  {
    assert ([first] + tail)[1..] == tail;
  }

  lemma JoinDot(rest: seq<string>)
    requires |rest| >= 1
    ensures Join([""] + rest) == "." + Join(rest)
  {
    hide Join;
    JoinMore("", rest);
    assert "" + "." == ".";
  }

  lemma JoinChar(c: char, rest: seq<string>)
    requires |rest| >= 1
    ensures Join([[c] + rest[0]] + rest[1..]) == [c] + Join(rest)
  {
    hide Join;
    JoinMore([c] + rest[0], rest[1..]);
    JoinHead(rest);
    if rest[1..] != [] {
      Regroup([c], rest[0], rest[1..]);
    }
  }

  lemma JoinHead(labels: seq<string>)
    requires |labels| >= 1
    ensures Join(labels) == if labels[1..] == [] then labels[0] else labels[0] + "." + Join(labels[1..])
  {
  }

  lemma Regroup(a: string, b: string, tail: seq<string>)
    requires tail != []
    ensures a + b + "." + Join(tail) == a + (b + "." + Join(tail))
  {
    hide Join;
  }

  lemma {:induction false} SplitLabel(text: string)
    requires '.' !in text
    ensures Split(text) == [text]
  {
    if text != "" {
      SplitLabel(text[1..]);
      assert text == [text[0]] + text[1..];
      assert text[0] in text;
    }
  }

  lemma SplitConcatStep(c: char, p: seq<string>, q: seq<string>)
    requires |p| >= 1
    ensures [""] + (p + q) == [""] + p + q
    ensures [[c] + (p + q)[0]] + (p + q)[1..] == [[c] + p[0]] + p[1..] + q
  {
  }

  /** A dot between two names joins their label sequences. */
  lemma {:induction false} SplitConcat(a: string, b: string)
    ensures Split(a + "." + b) == Split(a) + Split(b)
  {
    var s := a + "." + b;
    if a == "" {
      assert s[0] == '.' && s[1..] == b;
    } else {
      SplitConcat(a[1..], b);
      assert s[0] == a[0] && s[1..] == a[1..] + "." + b;
      SplitConcatStep(a[0], Split(a[1..]), Split(b));
    }
  }

  lemma {:induction false} JoinSplit(labels: seq<string>)
    requires |labels| >= 1
    requires forall i :: 0 <= i < |labels| ==> '.' !in labels[i]
    ensures Split(Join(labels)) == labels
  {
    SplitLabel(labels[0]);
    if |labels| > 1 {
      JoinSplit(labels[1..]);
      SplitConcat(labels[0], Join(labels[1..]));
    }
  }

  lemma {:induction false} JoinConcat(a: seq<string>, b: seq<string>)
    requires |a| >= 1 && |b| >= 1
    ensures Join(a + b) == Join(a) + "." + Join(b)
  {
    if |a| == 1 {
      assert (a + b)[1..] == b;
    } else {
      JoinConcat(a[1..], b);
      assert (a + b)[1..] == a[1..] + b;
    }
  }

  /** `t` is at or above `s` in the name tree. */
  predicate IsSuffix(t: seq<string>, s: seq<string>) {
    |t| <= |s| && s[|s| - |t|..] == t
  }

  lemma EndsIn(a: string, b: string)
    ensures HasSuffix(a + b, b)
  {
  }

  lemma {:induction false} LabelSuffixIsBelow(s: seq<string>, d: seq<string>)
    requires 1 <= |d| < |s| && IsSuffix(d, s)
    ensures HasSuffix(Join(s), "." + Join(d))
  {
    var a := s[..|s| - |d|];
    assert s == a + d;
    JoinConcat(a, d);
    EndsIn(Join(a), "." + Join(d));
    assert Join(a) + "." + Join(d) == Join(a) + ("." + Join(d));
  }

  /** The textual test "ends in a dot and d" is the structural test "strictly below d". */
  lemma {:induction false} BelowIsLabelSuffix(s: string, d: string)
    ensures HasSuffix(s, "." + d) <==> IsSuffix(Split(d), Split(s)) && |Split(d)| < |Split(s)|
  {
    if HasSuffix(s, "." + d) {
      var a := s[..|s| - |d| - 1];
      assert s == a + ("." + d) == a + "." + d;
      SplitConcat(a, d);
    }
    if IsSuffix(Split(d), Split(s)) && |Split(d)| < |Split(s)| {
      LabelSuffixIsBelow(Split(s), Split(d));
      SplitJoin(s);
      SplitJoin(d);
    }
  }

  // ----- Canonical names are fixed points -----

  lemma {:induction false} JoinChars(labels: seq<string>)
    requires |labels| >= 1
    requires forall i :: 0 <= i < |labels| ==> ValidLabel(labels[i])
    ensures forall c :: c in Join(labels) ==> LabelChar(c) || c == '.'
    ensures Join(labels) != "" && Join(labels)[|Join(labels)| - 1] != '.'
  {
    if |labels| > 1 {
      JoinChars(labels[1..]);
    }
  }

  /** A valid name is made of label characters and dots, does not end in a dot, and is lower case already. */
  lemma ValidNameChars(name: string)
    requires ValidDNSName(name)
    ensures forall c :: c in name ==> LabelChar(c) || c == '.'
    ensures name[|name| - 1] != '.'
    ensures ToLower(name) == name && TrimSuffix(name, ".") == name
  {
    JoinChars(Split(name));
    SplitJoin(name);
    forall i | 0 <= i < |name| ensures LowerChar(name[i]) == name[i] {
      assert name[i] in name;
    }
  }

  /** A valid domain is its own canonical form. */
  lemma ValidDomainIsCanonical(domain: string)
    requires ValidDNSName(domain)
    ensures CanonicalDomain(domain) == domain
  {
    ValidNameChars(domain);
    assert domain[0] in domain && domain[|domain| - 1] in domain;
    assert TrimSpace(domain) == domain;
  }

  lemma CanonicalIsStable(name: string, domain: string)
    ensures IsCanonical(name, domain) ==>
              && var n := name[..|name| - 1];
                 ToLower(TrimSuffix(name, ".")) == n && '.' in n
  {
    if IsCanonical(name, domain) {
      var n := name[..|name| - 1];
      ValidNameChars(n);
      assert TrimSuffix(name, ".") == n;
      var d := CanonicalDomain(domain);
      assert n[|n| - |d| - 1] == '.';
    }
  }

  /** Normalising is idempotent, and its fixed points are exactly the canonical names. */
  lemma NormalizeIdempotent(hostname: string, domain: string)
    ensures var r := NormalizeHostname(hostname, domain);
            NormalizeHostname(r, domain) == r
    ensures hostname != "" ==> (NormalizeHostname(hostname, domain) == hostname <==> IsCanonical(hostname, domain))
  {
    var r := NormalizeHostname(hostname, domain);
    if r == "" {
      assert ToLower(TrimSuffix(r, ".")) == "";
    }
  }

  /** The labels of a canonical name: valid, and strictly below the domain's. */
  lemma CanonicalLabels(name: string, domain: string)
    requires IsCanonical(name, domain)
    ensures var labels := Split(name[..|name| - 1]);
            && (forall i :: 0 <= i < |labels| ==> ValidLabel(labels[i]))
            && IsSuffix(Split(CanonicalDomain(domain)), labels)
            && |labels| > |Split(CanonicalDomain(domain))|
  {
    BelowIsLabelSuffix(name[..|name| - 1], CanonicalDomain(domain));
  }
}
