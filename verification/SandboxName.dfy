/** Names of sandbox containers (pouch/convertor/cri.go): a regular expression recognises
    them and splitting takes them apart. */
module SandboxName {
  import opened Options
  import opened GoStrings

  // ---- Regular expressions, denotationally ------------------------------------------------

  /** Just what `^k8s_POD_([^_]+_){3}[0-9]+$` needs. */
  datatype Regex =
    | Literal(text: string)
    | NotChar(c: char)
    | Digit
    | Cat(first: Regex, second: Regex)
    | Plus(body: Regex)

  ghost predicate Matches(r: Regex, s: string)
    decreases r, |s|
  {
    match r
    case Literal(text) => s == text
    case NotChar(c) => |s| == 1 && s[0] != c
    case Digit => |s| == 1 && IsDigit(s[0])
    case Cat(a, b) => exists i :: 0 <= i <= |s| && Matches(a, s[..i]) && Matches(b, s[i..])
    case Plus(a) => Matches(a, s) || exists i :: 0 < i < |s| && Matches(a, s[..i]) && Matches(r, s[i..])
  }

  predicate IsDigit(c: char) { '0' <= c <= '9' }

  function Repeat(r: Regex, n: nat, rest: Regex): Regex { if n == 0 then rest else Cat(r, Repeat(r, n - 1, rest)) }

  function FieldRegex(): Regex { Cat(Plus(NotChar('_')), Literal("_")) }

  /** SandboxNameRegex; the three repetitions are written out. */
  function SandboxRegex(): Regex {
    Cat(Literal("k8s_POD_"), Repeat(FieldRegex(), 3, Plus(Digit)))
  }

  // ---- What it recognises ------------------------------------------------------------------

  predicate Digits(s: string) { s != "" && forall i | 0 <= i < |s| :: IsDigit(s[i]) }

  /** Six parts: the two fixed ones, three non-empty ones and a number. */
  predicate SandboxParts(p: seq<string>) {
    |p| == 6 && p[0] == "k8s" && p[1] == "POD" && p[2] != "" && p[3] != "" && p[4] != "" && Digits(p[5])
  }

  lemma {:induction false} PlusNotChar(c: char, s: string)
    ensures Matches(Plus(NotChar(c)), s) <==> s != "" && c !in s
    decreases |s|
  {
    if |s| > 1 {
      PlusNotChar(c, s[1..]);
      assert s == [s[0]] + s[1..];
      forall i | 0 < i < |s|
        ensures Matches(NotChar(c), s[..i]) ==> i == 1
      {
      }
      if s[0] != c && c !in s[1..] {
        assert Matches(NotChar(c), s[..1]) && Matches(Plus(NotChar(c)), s[1..]);
      }
    }
  }

  lemma {:induction false} PlusDigit(s: string)
    ensures Matches(Plus(Digit), s) <==> Digits(s)
    decreases |s|
  {
    if |s| > 1 {
      PlusDigit(s[1..]);
      forall i | 0 < i < |s|
        ensures Matches(Digit, s[..i]) ==> i == 1
      {
      }
      assert Digits(s) <==> IsDigit(s[0]) && Digits(s[1..]);
      if Digits(s) {
        assert Matches(Digit, s[..1]) && Matches(Plus(Digit), s[1..]);
      }
    }
  }

  /** A field is a non-empty text ending at the first underscore. */
  lemma FieldMatches(s: string)
    ensures Matches(FieldRegex(), s) <==> |s| >= 2 && s[|s| - 1] == '_' && '_' !in s[..|s| - 1]
  {
    var n := |s| - 1;
    if Matches(FieldRegex(), s) {
      var i :| 0 <= i <= |s| && Matches(Plus(NotChar('_')), s[..i]) && Matches(Literal("_"), s[i..]);
      PlusNotChar('_', s[..i]);
      assert i == n;
    } else if |s| >= 2 && s[n] == '_' && '_' !in s[..n] {
      PlusNotChar('_', s[..n]);
      assert s[n..] == "_";
      assert Matches(Literal("_"), s[n..]);
    }
  }

  lemma CatCut(a: Regex, b: Regex, s: string) returns (i: nat)
    requires Matches(Cat(a, b), s)
    ensures i <= |s| && Matches(a, s[..i]) && Matches(b, s[i..])
  {
    i :| 0 <= i <= |s| && Matches(a, s[..i]) && Matches(b, s[i..]);
  }

  lemma FieldCut(field: string) returns (head: string)
    requires Matches(FieldRegex(), field)
    ensures field == head + ['_'] && head != "" && '_' !in head
  {
    FieldMatches(field);
    head := field[..|field| - 1];
  }

  lemma FieldThenSplits(rest: Regex, s: string)
    requires Matches(Cat(FieldRegex(), rest), s)
    ensures var p := Split(s, '_'); |p| >= 2 && p[0] != "" && Matches(rest, Join(p[1..], '_'))
  {
    var i := CatCut(FieldRegex(), rest, s);
    var head := FieldCut(s[..i]);
    assert s == s[..i] + s[i..];
    SplitAtCut(head, s[i..]);
  }

  lemma SplitAtCut(head: string, tail: string)
    requires '_' !in head
    ensures var p := Split(head + ['_'] + tail, '_'); |p| >= 2 && p[0] == head && Join(p[1..], '_') == tail
  {
    SplitConcat(head, tail, '_');
    SplitAtom(head, '_');
    JoinSplit(tail, '_');
    assert ([head] + Split(tail, '_'))[1..] == Split(tail, '_');
  }

  lemma SplitsThenField(rest: Regex, head: string, tail: string)
    requires head != "" && '_' !in head && Matches(rest, tail)
    ensures Matches(Cat(FieldRegex(), rest), head + ['_'] + tail)
  {
    var s := head + ['_'] + tail;
    var i := |head| + 1;
    assert s[..i] == head + ['_'] && s[i..] == tail;
    FieldMatches(s[..i]);
    assert s[..i][..|head|] == head;
    assert Matches(FieldRegex(), s[..i]) && Matches(rest, s[i..]);
  }

  /** A field in front of a pattern peels one non-empty part off the split. */
  lemma FieldThen(rest: Regex, s: string)
    ensures Matches(Cat(FieldRegex(), rest), s) <==>
            var p := Split(s, '_');
            |p| >= 2 && p[0] != "" && Matches(rest, Join(p[1..], '_'))
  {
    var p := Split(s, '_');
    if Matches(Cat(FieldRegex(), rest), s) {
      FieldThenSplits(rest, s);
    }
    if |p| >= 2 && p[0] != "" && Matches(rest, Join(p[1..], '_')) {
      JoinSplit(s, '_');
      SplitsThenField(rest, p[0], Join(p[1..], '_'));
    }
  }

  lemma MatchesAfterPrefix(rest: Regex, name: string)
    ensures Matches(Cat(Literal("k8s_POD_"), rest), name) <==>
            |name| >= 8 && name[..8] == "k8s_POD_" && Matches(rest, name[8..])
  {
    if |name| >= 8 && name[..8] == "k8s_POD_" && Matches(rest, name[8..]) {
      assert Matches(Literal("k8s_POD_"), name[..8]);
    }
  }

  /** The regular expression matches exactly the names that split into the six parts. */
  lemma RegexIsSixParts(name: string)
    ensures Matches(SandboxRegex(), name) <==> SandboxParts(Split(name, '_'))
    ensures Matches(SandboxRegex(), name) <==>
              var p := Split(name, '_');
              && |p| == 6 && p[0] == "k8s" && p[1] == "POD" && p[2] != "" && p[3] != "" && p[4] != ""
              && p[5] != "" && forall i :: 0 <= i < |p[5]| ==> '0' <= p[5][i] <= '9'
  {
    MatchesAfterPrefix(Repeat(FieldRegex(), 3, Plus(Digit)), name);
    var p := Split(name, '_');
    if |name| >= 8 && name[..8] == "k8s_POD_" {
      assert name == "k8s_POD_" + name[8..];
      SplitAfterPrefix(name[8..]);
      ThreeFields(name[8..]);
    } else if SandboxParts(p) {
      PrefixOfParts(name);
    }
  }

  lemma PrefixOfParts(name: string)
    requires var p := Split(name, '_'); |p| > 2 && p[0] == "k8s" && p[1] == "POD"
    ensures |name| >= 8 && name[..8] == "k8s_POD_"
  {
    var p := Split(name, '_');
    JoinSplit(name, '_');
    assert p[1..][1..] == p[2..];
    assert name == "k8s" + ['_'] + ("POD" + ['_'] + Join(p[2..], '_'));
  }

  lemma SplitTwo(a: string, b: string, s: string)
    requires '_' !in a && '_' !in b
    ensures Split(a + ['_'] + (b + ['_'] + s), '_') == [a, b] + Split(s, '_')
  {
    SplitOne(b, s, b + ['_'] + s);
    SplitOne(a, b + ['_'] + s, a + ['_'] + (b + ['_'] + s));
  }

  lemma SplitOne(a: string, s: string, whole: string)
    requires '_' !in a && whole == a + ['_'] + s
    ensures Split(whole, '_') == [a] + Split(s, '_')
  {
    SplitAtom(a, '_');
    SplitConcat(a, s, '_');
  }

  lemma SplitAfterPrefix(s: string)
    ensures Split("k8s_POD_" + s, '_') == ["k8s", "POD"] + Split(s, '_')
  {
    SplitTwo("k8s", "POD", s);
    assert "k8s_POD_" + s == "k8s" + ['_'] + ("POD" + ['_'] + s);
  }

  lemma ThreeFields(s: string)
    ensures Matches(Repeat(FieldRegex(), 3, Plus(Digit)), s) <==>
            var p := Split(s, '_'); |p| == 4 && p[0] != "" && p[1] != "" && p[2] != "" && Digits(p[3])
  {
    var p := Split(s, '_');
    var two := Repeat(FieldRegex(), 2, Plus(Digit));
    var one := Repeat(FieldRegex(), 1, Plus(Digit));
    assert Repeat(FieldRegex(), 3, Plus(Digit)) == Cat(FieldRegex(), two);
    assert two == Cat(FieldRegex(), one) && one == Cat(FieldRegex(), Plus(Digit));
    FieldThen(two, s);
    if |p| >= 2 {
      SplitJoin(p[1..], '_');
      FieldThen(one, Join(p[1..], '_'));
      if |p| >= 3 {
        assert p[1..][1..] == p[2..];
        SplitJoin(p[2..], '_');
        FieldThen(Plus(Digit), Join(p[2..], '_'));
        if |p| >= 4 {
          assert p[2..][1..] == p[3..];
          PlusDigit(Join(p[3..], '_'));
          if |p| >= 5 {
            assert Join(p[3..], '_') == p[3] + ['_'] + Join(p[3..][1..], '_');
            assert Join(p[3..], '_')[|p[3]|] == '_';
          }
        }
      }
    }
  }

  // ---- Numbers -------------------------------------------------------------------------------

  const MAX_UINT32: nat := 0xFFFF_FFFF

  function Decimal(s: string): nat
    requires forall i :: 0 <= i < |s| ==> IsDigit(s[i])
  {
    if s == "" then 0 else assert IsDigit(s[|s| - 1]); Decimal(s[..|s| - 1]) * 10 + (s[|s| - 1] as int - '0' as int)
  }

  /** strconv.ParseUint(s, 10, 32). */
  function ParseUint32(s: string): Option<nat> {
    if Digits(s) && Decimal(s) <= MAX_UINT32 then Some(Decimal(s)) else None
  }

  /** Decimal notation without leading zeros. */
  function Show(n: nat): (s: string)
    ensures Digits(s)
  {
    var d := [(n % 10 + '0' as int) as char];
    if n < 10 then d else Show(n / 10) + d
  }

  lemma {:induction false} DecimalShow(n: nat)
    ensures Decimal(Show(n)) == n
  {
    if n >= 10 {
      DecimalShow(n / 10);
      assert Show(n)[..|Show(n)| - 1] == Show(n / 10);
    }
  }

  predicate NoLeadingZero(s: string) { |s| > 1 ==> s[0] != '0' }

  lemma {:induction false} ShowFirst(n: nat)
    ensures NoLeadingZero(Show(n))
    ensures n > 0 ==> Show(n)[0] != '0'
  {
    if n >= 10 {
      ShowFirst(n / 10);
    }
  }

  lemma ShowStep(n: nat, d: nat)
    requires n > 0 && d < 10
    ensures Show(n * 10 + d) == Show(n) + [(d + '0' as int) as char]
  {
    assert (n * 10 + d) / 10 == n && (n * 10 + d) % 10 == d;
  }

  lemma {:induction false} DecimalPositive(s: string)
    requires Digits(s) && s[0] != '0'
    ensures Decimal(s) > 0
  {
    if |s| > 1 {
      DecimalPositive(s[..|s| - 1]);
    }
  }

  lemma {:induction false} ShowDecimalExact(s: string)
    requires Digits(s) && NoLeadingZero(s)
    ensures Show(Decimal(s)) == s
  {
    var init, d := s[..|s| - 1], s[|s| - 1] as int - '0' as int;
    assert s == init + [s[|s| - 1]];
    if |s| > 1 {
      ShowDecimalExact(init);
      DecimalPositive(init);
      ShowStep(Decimal(init), d);
    }
  }

  /** Showing what was read gives the digits back exactly when there is no leading zero. */
  lemma ShowDecimal(s: string)
    requires Digits(s)
    ensures Show(Decimal(s)) == s <==> NoLeadingZero(s)
  {
    ShowFirst(Decimal(s));
    if NoLeadingZero(s) {
      ShowDecimalExact(s);
    }
  }

  // ---- Parsing and printing --------------------------------------------------------------------

  datatype Metadata = Metadata(name: string, namespace: string, uid: string, attempt: nat)

  /** getPodSandboxMetadataBySandboxName. */
  ghost function ParseName(name: string): Option<Metadata> {
    if !Matches(SandboxRegex(), name) then None
    else
      var parts := Split(name, '_');
      RegexIsSixParts(name);
      var attempt := ParseUint32(parts[5]);
      if attempt.None? then None else Some(Metadata(parts[2], parts[3], parts[4], attempt.value))
  }

  /** How kubelet names a sandbox container. */
  function PrintName(m: Metadata): string {
    Join(["k8s", "POD", m.name, m.namespace, m.uid, Show(m.attempt)], '_')
  }

  predicate Printable(m: Metadata) {
    && m.name != "" && m.namespace != "" && m.uid != ""
    && '_' !in m.name && '_' !in m.namespace && '_' !in m.uid
    && m.attempt <= MAX_UINT32
  }

  lemma PrintedParts(m: Metadata)
    requires '_' !in m.name && '_' !in m.namespace && '_' !in m.uid
    ensures Split(PrintName(m), '_') == ["k8s", "POD", m.name, m.namespace, m.uid, Show(m.attempt)]
  {
    var p := ["k8s", "POD", m.name, m.namespace, m.uid, Show(m.attempt)];
    assert '_' !in Show(m.attempt);
    SplitJoin(p, '_');
  }

  /** Parsing a printed record returns it. */
  lemma ParsePrinted(m: Metadata)
    requires Printable(m)
    ensures ParseName(PrintName(m)) == Some(m)
  {
    PrintedParts(m);
    RegexIsSixParts(PrintName(m));
    DecimalShow(m.attempt);
  }

  /** The digits of a number count as usual. */
  lemma DecimalPlaces(s: string, d: char)
    requires (forall i :: 0 <= i < |s| ==> '0' <= s[i] <= '9') && '0' <= d <= '9'
    ensures Decimal("") == 0
    ensures (forall i :: 0 <= i < |s| + 1 ==> '0' <= (s + [d])[i] <= '9')
    ensures Decimal(s + [d]) == 10 * Decimal(s) + (d as int - '0' as int)
  {
    assert (s + [d])[..|s|] == s;
  }

  /** What a name with the six parts and a 32-bit attempt yields, and that no other name yields
      anything. */
  lemma ParseExactly(name: string, m: Metadata)
    ensures ParseName(name) == Some(m) <==>
              var p := Split(name, '_');
              && |p| == 6 && p[0] == "k8s" && p[1] == "POD" && p[2] != "" && p[3] != "" && p[4] != ""
              && p[5] != "" && (forall i :: 0 <= i < |p[5]| ==> '0' <= p[5][i] <= '9')
              && Decimal(p[5]) <= 4_294_967_295 && m == Metadata(p[2], p[3], p[4], Decimal(p[5]))
  {
    RegexIsSixParts(name);
  }

  /** On names that match, parsing fails exactly when the attempt exceeds 32 bits. */
  lemma ParseFailsOnOverflow(name: string)
    requires Matches(SandboxRegex(), name)
    ensures SandboxParts(Split(name, '_'))
    ensures ParseName(name).None? <==> Decimal(Split(name, '_')[5]) > 4_294_967_295
  {
    RegexIsSixParts(name);
  }

  /** Printing what was parsed gives the name back exactly when the attempt was written
      without leading zeros. */
  lemma PrintParsed(name: string)
    requires ParseName(name).Some?
    ensures Printable(ParseName(name).value)
    ensures |Split(name, '_')| == 6
    ensures PrintName(ParseName(name).value) == name <==> NoLeadingZero(Split(name, '_')[5])
  {
    RegexIsSixParts(name);
    var p := Split(name, '_');
    var m := ParseName(name).value;
    JoinSplit(name, '_');
    PrintedParts(m);
    ShowDecimal(p[5]);
    assert p == [p[0], p[1], p[2], p[3], p[4], p[5]];
  }
}
