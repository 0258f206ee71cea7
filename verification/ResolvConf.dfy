/** Reading a resolv.conf (toDNSConfig in pouch/convertor/cri.go). */
module ResolvConf {
  import opened Options
  import opened GoStrings
  import opened SliceUtils

  datatype DNSConfig = DNSConfig(servers: seq<string>, searches: seq<string>, options: seq<string>)

  datatype Result = Config(config: DNSConfig) | NoConfig | ReadError

  // ---- What a text says ------------------------------------------------------------------

  /** The words of a line: its trimmed text cut at single spaces. */
  function Words(line: string): seq<string> { Split(TrimSpace(line), ' ') }

  /** What a line contributes to the list of `key`. */
  function LineEntries(line: string, key: string): seq<string> {
    var w := Words(line);
    if |w| >= 2 && w[0] == key then w[1..] else []
  }

  /** The contributions of all lines, one after the other. */
  function Gather(contribution: string -> seq<string>, lines: seq<string>): seq<string> {
    if lines == [] then []
    else Gather(contribution, lines[..|lines| - 1]) + contribution(lines[|lines| - 1])
  }

  function Reader(key: string): string -> seq<string> { line => LineEntries(line, key) }

  function Entries(lines: seq<string>, key: string): seq<string> { Gather(Reader(key), lines) }

  function Field(text: string, key: string): seq<string> { TrimAll(Entries(Split(text, '\n'), key)) }

  function Parse(text: string): DNSConfig {
    DNSConfig(Field(text, "nameserver"), Field(text, "search"), Field(text, "options"))
  }

  /** No empty entry, and no white space around one. */
  ghost predicate Clean(ts: seq<string>) { forall i :: 0 <= i < |ts| ==> ts[i] != "" && Trimmed(ts[i]) }

  // ---- The code ---------------------------------------------------------------------------

  /** `file` is the content of the file at `path`, if it can be read. */
  method ToDNSConfig(path: string, file: Option<string>) returns (r: Result)
    ensures r == if path == "" then NoConfig else if file.None? then ReadError else Config(Parse(file.value))
    ensures r.Config? ==> Clean(r.config.servers) && Clean(r.config.searches) && Clean(r.config.options)
  {
    if path == "" {
      return NoConfig;
    }
    if file.None? {
      return ReadError;
    }
    var lines := Split(file.value, '\n');
    var servers, searches, options: seq<string> := [], [], [];
    for i := 0 to |lines|
      invariant servers == Entries(lines[..i], "nameserver")
      invariant searches == Entries(lines[..i], "search")
      invariant options == Entries(lines[..i], "options")
    {
      assert lines[..i + 1][..i] == lines[..i];
      var resolvOptions := Split(TrimSpace(lines[i]), ' ');
      if |resolvOptions| < 2 {
        continue;
      }
      match resolvOptions[0]
      case "search" => searches := searches + resolvOptions[1..];
      case "nameserver" => servers := servers + resolvOptions[1..];
      case "options" => options := options + resolvOptions[1..];
      case _ =>
    }
    assert lines[..|lines|] == lines;
    servers := SliceTrimSpace(servers);
    searches := SliceTrimSpace(searches);
    options := SliceTrimSpace(options);
    return Config(DNSConfig(servers, searches, options));
  }

  // ---- Texts compose ------------------------------------------------------------------------

  lemma {:induction false} GatherConcat(f: string -> seq<string>, a: seq<string>, b: seq<string>)
    ensures Gather(f, a + b) == Gather(f, a) + Gather(f, b)
  {
    if b == [] {
      assert a + b == a;
    } else {
      assert (a + b)[..|a + b| - 1] == a + b[..|b| - 1];
      GatherConcat(f, a, b[..|b| - 1]);
    }
  }

  lemma GatherOne(f: string -> seq<string>, line: string)
    ensures Gather(f, [line]) == f(line)
  {
    assert [line][..0] == [];
    assert Gather(f, [line]) == [] + f(line);
  }

  function Append(a: DNSConfig, b: DNSConfig): DNSConfig {
    DNSConfig(a.servers + b.servers, a.searches + b.searches, a.options + b.options)
  }

  lemma FieldConcat(a: string, b: string, key: string)
    ensures Field(a + ['\n'] + b, key) == Field(a, key) + Field(b, key)
  {
    SplitConcat(a, b, '\n');
    GatherConcat(Reader(key), Split(a, '\n'), Split(b, '\n'));
    TrimAllConcat(Entries(Split(a, '\n'), key), Entries(Split(b, '\n'), key));
  }

  /** Parsing two texts one after the other is parsing each and appending the lists. */
  lemma ParseConcat(a: string, b: string)
    ensures Parse(a + ['\n'] + b) == Append(Parse(a), Parse(b))
  {
    FieldConcat(a, b, "nameserver");
    FieldConcat(a, b, "search");
    FieldConcat(a, b, "options");
  }

  // ---- Printing and parsing -------------------------------------------------------------------

  ghost predicate Token(t: string) { t != "" && forall i :: 0 <= i < |t| ==> !IsSpace(t[i]) }

  ghost predicate Tokens(ts: seq<string>) { forall i :: 0 <= i < |ts| ==> Token(ts[i]) }

  function Line(key: string, tokens: seq<string>): string { Join([key] + tokens, ' ') }

  function Print(c: DNSConfig): string {
    Line("nameserver", c.servers) + ['\n'] + (Line("search", c.searches) + ['\n'] + Line("options", c.options))
  }

  lemma {:induction false} JoinTokens(ts: seq<string>)
    requires ts != [] && Tokens(ts)
    ensures Trimmed(Join(ts, ' ')) && Join(ts, ' ') != "" && '\n' !in Join(ts, ' ')
  {
    if |ts| > 1 {
      var rest := Join(ts[1..], ' ');
      JoinTokens(ts[1..]);
      var s := ts[0] + [' '] + rest;
      assert s[0] == ts[0][0] && s[|s| - 1] == rest[|rest| - 1];
    }
  }

  /** What one line says: it is trimmed and cut at spaces, and if its first word is the key and
      is not the only one, the others are taken, empty ones and padding aside. */
  lemma LineMeans(line: string, key: string)
    requires '\n' !in line
    ensures var words := Split(TrimSpace(line), ' ');
            Field(line, key) == if |words| >= 2 && words[0] == key then TrimAll(words[1..]) else []
  {
    SplitAtom(line, '\n');
    GatherOne(Reader(key), line);
    assert TrimAll([]) == [];
  }

  /** So white space around a line makes no difference. */
  lemma IndentedLine(pre: string, line: string, post: string, key: string)
    requires AllSpace(pre) && AllSpace(post) && Trimmed(line) && '\n' !in pre && '\n' !in line && '\n' !in post
    ensures Field(pre + line + post, key) == Field(line, key)
  {
    TrimSpacePadded(pre, line, post);
    LineMeans(pre + line + post, key);
    LineMeans(line, key);
  }

  lemma LineParses(key: string, tokens: seq<string>, wanted: string)
    requires Token(key) && Tokens(tokens)
    ensures Field(Line(key, tokens), wanted) == if key == wanted then tokens else []
  {
    var w := [key] + tokens;
    var line := Line(key, tokens);
    JoinTokens(w);
    forall i | 0 <= i < |w|
      ensures ' ' !in w[i]
    {
      assert Token(w[i]);
    }
    SplitJoin(w, ' ');
    SplitAtom(line, '\n');
    assert Words(line) == w;
    GatherOne(Reader(wanted), line);
    forall i | 0 <= i < |tokens|
      ensures tokens[i] != "" && Trimmed(tokens[i])
    {
      assert Token(tokens[i]);
    }
    TrimAllKeeps(tokens);
  }

  lemma ServersLine(ts: seq<string>)
    requires Tokens(ts)
    ensures Parse(Line("nameserver", ts)) == DNSConfig(ts, [], [])
  {
    LineParses("nameserver", ts, "nameserver");
    LineParses("nameserver", ts, "search");
    LineParses("nameserver", ts, "options");
  }

  lemma SearchesLine(ts: seq<string>)
    requires Tokens(ts)
    ensures Parse(Line("search", ts)) == DNSConfig([], ts, [])
  {
    LineParses("search", ts, "nameserver");
    LineParses("search", ts, "search");
    LineParses("search", ts, "options");
  }

  lemma OptionsLine(ts: seq<string>)
    requires Tokens(ts)
    ensures Parse(Line("options", ts)) == DNSConfig([], [], ts)
  {
    LineParses("options", ts, "nameserver");
    LineParses("options", ts, "search");
    LineParses("options", ts, "options");
  }

  lemma FieldOfThree(x: string, y: string, z: string, key: string)
    ensures Field(x + ['\n'] + (y + ['\n'] + z), key) == Field(x, key) + (Field(y, key) + Field(z, key))
  {
    FieldConcat(y, z, key);
    FieldConcat(x, y + ['\n'] + z, key);
  }

  lemma ParseOfThree(x: string, y: string, z: string)
    ensures Parse(x + ['\n'] + (y + ['\n'] + z)) == Append(Parse(x), Append(Parse(y), Parse(z)))
  {
    FieldOfThree(x, y, z, "nameserver");
    FieldOfThree(x, y, z, "search");
    FieldOfThree(x, y, z, "options");
  }

  lemma AppendThree(c: DNSConfig, p: DNSConfig, q: DNSConfig, r: DNSConfig)
    requires p == DNSConfig(c.servers, [], []) && q == DNSConfig([], c.searches, [])
    requires r == DNSConfig([], [], c.options)
    ensures Append(p, Append(q, r)) == c
  {
  }

  lemma ParseThree(c: DNSConfig, x: string, y: string, z: string)
    requires Parse(x) == DNSConfig(c.servers, [], []) && Parse(y) == DNSConfig([], c.searches, [])
    requires Parse(z) == DNSConfig([], [], c.options)
    ensures Parse(x + ['\n'] + (y + ['\n'] + z)) == c
  {
    AppendThree(c, Parse(x), Parse(y), Parse(z));
    ParseOfThree(x, y, z);
  }

  /** Lists of non-empty words survive printing and parsing. */
  lemma ParsePrinted(c: DNSConfig)
    requires Tokens(c.servers) && Tokens(c.searches) && Tokens(c.options)
    ensures Parse(Print(c)) == c
  {
    ServersLine(c.servers);
    SearchesLine(c.searches);
    OptionsLine(c.options);
    ParseThree(c, Line("nameserver", c.servers), Line("search", c.searches), Line("options", c.options));
  }
}
