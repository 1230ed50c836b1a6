/** Names of nodes, topics and services: the checks that accept them, how they are printed and
    parsed, and how the two backends resolve them against the name of a node. */
module Names {
  import opened Basics
  import opened Text

  datatype NameError = Empty | BadChar(c: char) | BadSlash(namespace: string, name: string)

  datatype Checked<+T> = Ok(value: T) | Err(error: NameError)

  predicate Alphabetic(c: char) {
    'a' <= c <= 'z' || 'A' <= c <= 'Z'
  }

  predicate StartChar(c: char) {
    Alphabetic(c) || c == '_'
  }

  predicate WordChar(c: char) {
    StartChar(c) || IsDigit(c)
  }

  predicate PathChar(c: char) {
    WordChar(c) || c == '/'
  }

  predicate AllChars(s: string, ok: char -> bool) {
    forall k :: 0 <= k < |s| ==> ok(s[k])
  }

  /** `chars().find` of a character that is not allowed. */
  function FirstBad(s: string, ok: char -> bool): (r: Option<char>)
    ensures r.None? <==> AllChars(s, ok)
    ensures r.Some? ==> r.value in s && !ok(r.value)
  {
    if s == [] then None
    else if !ok(s[0]) then Some(s[0])
    else FirstBad(s[1..], ok)
  }

  predicate NoDoubleUnderscore(s: string) {
    forall k :: 0 <= k < |s| - 1 ==> !(s[k] == '_' == s[k + 1])
  }

  predicate ValidToken(s: string) {
    s != [] && StartChar(s[0]) && AllChars(s, WordChar) && NoDoubleUnderscore(s)
  }

  predicate AllValid(tokens: seq<string>) {
    forall i :: 0 <= i < |tokens| ==> ValidToken(tokens[i])
  }

  lemma ValidIsFree(tokens: seq<string>)
    requires AllValid(tokens)
    ensures AllFree(tokens, '/')
  {
    forall i | 0 <= i < |tokens| ensures Free(tokens[i], '/') {
      assert ValidToken(tokens[i]);
    }
  }

  // ---------------------------------------------------------------------------------------
  // Names of nodes

  datatype NodeName = NodeName(namespace: string, base: string)

  /** `NodeName::new`: the base name is checked first, then the namespace. */
  function NewNodeName(namespace: string, base: string): Checked<NodeName> {
    if base == [] then Err(Empty)
    else if !StartChar(base[0]) then Err(BadChar(base[0]))
    else if FirstBad(base, WordChar).Some? then Err(BadChar(FirstBad(base, WordChar).value))
    else if namespace == [] then Err(BadSlash("<empty_namespace>", base))
    else if !(Alphabetic(namespace[0]) || namespace[0] == '/') then Err(BadChar(namespace[0]))
    else if namespace[0] != '/' then Err(BadSlash(namespace, base))
    else if FirstBad(namespace, PathChar).Some? then Err(BadChar(FirstBad(namespace, PathChar).value))
    else if namespace[|namespace| - 1] == '/' && namespace != "/" then Err(BadSlash(namespace, base))
    else Ok(NodeName(namespace, base))
  }

  predicate ValidNodeName(node: NodeName) {
    NewNodeName(node.namespace, node.base) == Ok(node)
  }

  /** The accepted names: an identifier, under a namespace that starts with a slash, ends with
      none unless it is the root, and has no other characters than those of identifiers. What is
      wrong with the base name is reported before anything else. */
  lemma NodeNameIff(namespace: string, base: string)
    ensures var r := NewNodeName(namespace, base);
            var baseOk := base != [] && StartChar(base[0]) && AllChars(base, WordChar);
            var namespaceOk := && namespace != [] && namespace[0] == '/' && AllChars(namespace, PathChar)
                               && (namespace == "/" || namespace[|namespace| - 1] != '/');
            && (r == Ok(NodeName(namespace, base)) <==> baseOk && namespaceOk)
            && (r.Ok? ==> r.value == NodeName(namespace, base))
            && (r == Err(Empty) <==> base == [])
            && (!baseOk && base != [] ==> r.Err? && r.error.BadChar? && r.error.c in base)
            && (r.Err? && r.error.BadSlash? ==> baseOk && !namespaceOk)
  {
  }

  /** `fully_qualified_name`. */
  method FullyQualified(node: NodeName) returns (fqn: string)
    ensures fqn == FullyQualifiedName(node)
  {
    fqn := node.namespace;
    if fqn == [] || fqn[|fqn| - 1] != '/' {
      fqn := fqn + "/";
    }
    fqn := fqn + node.base;
  }

  function FullyQualifiedName(node: NodeName): string {
    var ns := node.namespace;
    (if ns != [] && ns[|ns| - 1] == '/' then ns else ns + "/") + node.base
  }

  /** The namespace without a slash at its end. */
  function Stem(node: NodeName): string {
    if node.namespace == "/" then "" else node.namespace
  }

  /** Two accepted nodes with the same fully qualified name have the same name. */
  lemma FullyQualifiedInjective(a: NodeName, b: NodeName)
    requires ValidNodeName(a) && ValidNodeName(b) && FullyQualifiedName(a) == FullyQualifiedName(b)
    ensures a == b
  {
    assert FullyQualifiedName(a) == Stem(a) + ['/'] + a.base;
    assert FullyQualifiedName(b) == Stem(b) + ['/'] + b.base;
    assert Free(a.base, '/') && Free(b.base, '/');
    LastSplitUnique(Stem(a), a.base, Stem(b), b.base, '/');
  }

  // ---------------------------------------------------------------------------------------
  // Names of topics and services

  datatype Name = Name(base: string, tokens: seq<string>, absolute: bool)

  predicate ValidName(n: Name) {
    ValidToken(n.base) && AllValid(n.tokens)
  }

  /** The checks that `Name::new` makes of a base name, in their order. */
  function BaseError(base: string): (r: Option<NameError>)
    ensures r.None? <==> ValidToken(base)
  {
    if base == [] then Some(Empty)
    else if FirstBad(base, WordChar).Some? then Some(BadChar(FirstBad(base, WordChar).value))
    else if !StartChar(base[0]) then Some(BadChar(base[0]))
    else if !NoDoubleUnderscore(base) then Some(BadChar('_'))
    else None
  }

  predicate Absolute(namespace: string) {
    namespace != [] && namespace[0] == '/'
  }

  /** The namespace without a slash at its front. */
  function Relative(namespace: string): string {
    if Absolute(namespace) then namespace[1..] else namespace
  }

  function Tokens(rel: string): seq<string> {
    if rel == [] then [] else Split(rel, '/')
  }

  /** `Name::new`. */
  function NewName(namespace: string, base: string): Checked<Name> {
    var rel := Relative(namespace);
    if BaseError(base).Some? then Err(BaseError(base).value)
    else if [] in Tokens(rel) then Err(BadSlash(rel, base))
    else if AllValid(Tokens(rel)) then Ok(Name(base, Tokens(rel), Absolute(namespace)))
    else Err(BadChar('?'))
  }

  lemma NewNameIff(namespace: string, base: string)
    ensures NewName(namespace, base).Ok? <==> ValidToken(base) && AllValid(Tokens(Relative(namespace)))
  {
    var tokens := Tokens(Relative(namespace));
    assert AllValid(tokens) ==> forall i :: 0 <= i < |tokens| ==> tokens[i] != [];
  }

  /** Which error a name is refused with: the base name is checked first, then the slashes of the
      namespace, then its tokens. */
  lemma NewNameErrors(namespace: string, base: string)
    ensures var r := NewName(namespace, base);
            var rel := if namespace != [] && namespace[0] == '/' then namespace[1..] else namespace;
            && (base == "" ==> r == Err(Empty))
            && (base != "" && !ValidToken(base) ==> r.Err? && r.error.BadChar? && r.error.c in base)
            && (ValidToken(base) && rel != "" && [] in Split(rel, '/') ==> r == Err(BadSlash(rel, base)))
            && (ValidToken(base) && rel != "" && [] !in Split(rel, '/') && !AllValid(Split(rel, '/')) ==> r == Err(BadChar('?')))
  {
    if base != "" && !ValidToken(base) && FirstBad(base, WordChar).None? && StartChar(base[0]) {
      var k :| 0 <= k < |base| - 1 && base[k] == '_' == base[k + 1];
    }
  }

  /** `Name::parse`. */
  function Parse(full: string): Checked<Name> {
    match RSplitOnce(full, '/')
    case None => NewName("", full)
    case Some((prefix, base)) =>
      if prefix == "" && base == "" then Err(Empty)
      else if base == "" then Err(BadSlash(prefix, ""))
      else if prefix == "" then NewName("/", base)
      else if prefix[|prefix| - 1] == '/' then Err(BadSlash(prefix, base))
      else NewName(prefix, base)
  }

  /** Every token with a slash after it. */
  function Slashed(tokens: seq<string>): string {
    if tokens == [] then "" else tokens[0] + "/" + Slashed(tokens[1..])
  }

  function Led(absolute: bool, rel: string): string {
    (if absolute then "/" else "") + rel
  }

  function Display(n: Name): string {
    Led(n.absolute, Slashed(n.tokens) + n.base)
  }

  lemma {:induction false} SlashedAppend(tokens: seq<string>, token: string)
    ensures Slashed(tokens + [token]) == Slashed(tokens) + token + "/"
  {
    var all := tokens + [token];
    if tokens == [] {
      assert Slashed(all[1..]) == "";
    } else {
      assert all[1..] == tokens[1..] + [token];
      SlashedAppend(tokens[1..], token);
      Assoc(tokens[0] + "/", Slashed(tokens[1..]), token + "/");
      Assoc(Slashed(tokens[1..]), token, "/");
      Assoc(Slashed(tokens), token, "/");
    }
  }

  lemma {:induction false} SlashedIsJoin(tokens: seq<string>, base: string)
    ensures Slashed(tokens) + base == Join(tokens + [base], '/')
  {
    if tokens == [] {
      assert Slashed(tokens) + base == base;
    } else {
      SlashedIsJoin(tokens[1..], base);
      assert (tokens + [base])[1..] == tokens[1..] + [base];
      assert Slashed(tokens) + base == tokens[0] + ['/'] + (Slashed(tokens[1..]) + base);
    }
  }

  lemma {:induction false} JoinAppend(tokens: seq<string>, base: string)
    requires tokens != []
    ensures Join(tokens + [base], '/') == Join(tokens, '/') + ['/'] + base
  {
    var all := tokens + [base];
    if |tokens| == 1 {
      assert all[1..] == [base];
    } else {
      assert all[1..] == tokens[1..] + [base];
      JoinAppend(tokens[1..], base);
      assert Join(all, '/') == tokens[0] + ['/'] + (Join(tokens[1..], '/') + ['/'] + base);
    }
  }

  lemma {:induction false} JoinConcat(a: seq<string>, b: seq<string>)
    requires a != [] && b != []
    ensures Join(a + b, '/') == Join(a, '/') + ['/'] + Join(b, '/')
  {
    if |a| == 1 {
      assert (a + b)[1..] == b;
    } else {
      assert (a + b)[1..] == a[1..] + b;
      JoinConcat(a[1..], b);
      assert Join(a + b, '/') == a[0] + ['/'] + (Join(a[1..], '/') + ['/'] + Join(b, '/'));
    }
  }

  lemma JoinStart(tokens: seq<string>)
    requires tokens != [] && AllFree(tokens, '/') && tokens[|tokens| - 1] != []
    ensures Join(tokens, '/') != []
    ensures tokens[0] != [] ==> Join(tokens, '/')[0] != '/'
  {
    assert Free(tokens[0], '/');
  }

  lemma RelativeOfJoined(tokens: seq<string>, absolute: bool)
    requires tokens != [] && AllFree(tokens, '/') && tokens[|tokens| - 1] != []
    requires absolute || tokens[0] != []
    ensures var namespace := Led(absolute, Join(tokens, '/'));
            Absolute(namespace) == absolute && Relative(namespace) == Join(tokens, '/') != []
  {
    JoinStart(tokens);
    LedIsAbsolute(absolute, Join(tokens, '/'));
  }

  lemma LedIsAbsolute(absolute: bool, rel: string)
    requires rel != [] && (absolute || rel[0] != '/')
    ensures Absolute(Led(absolute, rel)) == absolute && Relative(Led(absolute, rel)) == rel
  {
    assert absolute ==> Led(absolute, rel)[1..] == rel;
    assert !absolute ==> Led(absolute, rel) == rel;
  }

  /** The tokens of the namespace are found again, for a namespace printed from tokens. */
  lemma NewNameOfJoined(tokens: seq<string>, base: string, absolute: bool)
    requires tokens != [] && AllFree(tokens, '/') && tokens[|tokens| - 1] != []
    requires absolute || tokens[0] != []
    ensures var r := NewName(Led(absolute, Join(tokens, '/')), base);
            && (r.Ok? <==> ValidToken(base) && AllValid(tokens))
            && (r.Ok? ==> r.value == Name(base, tokens, absolute))
  {
    NewNameIff(Led(absolute, Join(tokens, '/')), base);
    RelativeOfJoined(tokens, absolute);
    SplitJoin(tokens, '/');
  }

  /** What a namespace and a base name print as together. */
  function Together(namespace: string, base: string): string {
    if namespace == "" then base
    else if namespace == "/" then "/" + base
    else namespace + "/" + base
  }

  lemma AcceptedPrintsAsGiven(namespace: string, base: string)
    ensures NewName(namespace, base).Ok? ==>
              var n := NewName(namespace, base).value;
              ValidName(n) && Display(n) == Together(namespace, base)
  {
    NewNameIff(namespace, base);
    if NewName(namespace, base).Ok? {
      if Relative(namespace) == [] {
        assert Slashed([]) + base == base;
      } else {
        TokensPrintAsGiven(namespace, base);
      }
    }
  }

  lemma TokensPrintAsGiven(namespace: string, base: string)
    requires Relative(namespace) != []
    ensures Led(Absolute(namespace), Slashed(Tokens(Relative(namespace))) + base) == namespace + "/" + base
  {
    var rel := Relative(namespace);
    var tokens := Tokens(rel);
    JoinSplit(rel, '/');
    SlashedIsJoin(tokens, base);
    JoinAppend(tokens, base);
    assert namespace == Led(Absolute(namespace), rel);
    assert Led(Absolute(namespace), rel + ['/'] + base) == Led(Absolute(namespace), rel) + ['/'] + base;
  }

  /** A string with a last slash is cut there. */
  lemma ParseAtLastSlash(prefix: string, base: string)
    requires Free(base, '/') && base != [] && (prefix == [] || prefix[|prefix| - 1] != '/')
    ensures Parse(prefix + ['/'] + base) == NewName(if prefix == [] then "/" else prefix, base)
  {
    var cut := RSplitOnce(prefix + ['/'] + base, '/').value;
    LastSplitUnique(cut.0, cut.1, prefix, base, '/');
  }

  lemma ParseOfPrinted(n: Name)
    requires ValidName(n)
    ensures Parse(Display(n)) == Ok(n)
  {
    assert Free(n.base, '/');
    if n.tokens != [] {
      ParseOfQualified(n);
    } else if n.absolute {
      NewNameIff("/", n.base);
      assert Display(n) == [] + ['/'] + n.base;
      ParseAtLastSlash([], n.base);
    } else {
      NewNameIff("", n.base);
      assert Display(n) == n.base;
    }
  }

  lemma ParseOfQualified(n: Name)
    requires ValidName(n) && n.tokens != []
    ensures Parse(Display(n)) == Ok(n)
  {
    var rel := Join(n.tokens, '/');
    var prefix := Led(n.absolute, rel);
    SlashedIsJoin(n.tokens, n.base);
    JoinAppend(n.tokens, n.base);
    assert Display(n) == prefix + ['/'] + n.base;
    JoinEnd(n.tokens);
    assert prefix[|prefix| - 1] == rel[|rel| - 1];
    ParseAtLastSlash(prefix, n.base);
    ValidIsFree(n.tokens);
    NewNameOfJoined(n.tokens, n.base, n.absolute);
  }

  lemma {:induction false} JoinEnd(tokens: seq<string>)
    requires tokens != [] && AllValid(tokens)
    ensures var s := Join(tokens, '/'); s != [] && s[|s| - 1] != '/'
  {
    assert ValidToken(tokens[0]);
    if |tokens| > 1 {
      JoinEnd(tokens[1..]);
    }
  }

  lemma ParsedPrintsBack(s: string)
    ensures Parse(s).Ok? ==> ValidName(Parse(s).value) && Display(Parse(s).value) == s
  {
    match RSplitOnce(s, '/')
    case None => AcceptedPrintsAsGiven("", s);
    case Some((prefix, base)) =>
      if prefix == "" {
        AcceptedPrintsAsGiven("/", base);
        assert s == Together("/", base);
      } else if prefix[|prefix| - 1] != '/' {
        AcceptedPrintsAsGiven(prefix, base);
        assert s == Together(prefix, base);
      }
  }

  /** Parsing accepts exactly the printed forms of valid names, and gives the name back: `parse`
      and `Display` are inverse to each other. */
  lemma ParseIffPrinted(s: string, n: Name)
    ensures Parse(s) == Ok(n) <==> ValidName(n) && Display(n) == s
  {
    if Parse(s) == Ok(n) {
      ParsedPrintsBack(s);
    }
    if ValidName(n) && Display(n) == s {
      ParseOfPrinted(n);
    }
  }

  /** Which error a string is refused with, by where its last slash is. */
  lemma ParseErrors(prefix: string, base: string)
    requires Free(base, '/')
    ensures Parse("") == Err(Empty) && Parse("/") == Err(Empty)
    ensures base == "" && prefix != "" ==> Parse(prefix + "/" + base) == Err(BadSlash(prefix, ""))
    ensures base != "" && prefix != "" && prefix[|prefix| - 1] == '/' ==>
              Parse(prefix + "/" + base) == Err(BadSlash(prefix, base))
  {
    assert RSplitOnce("/", '/') == Some(("", ""));
    var s := prefix + ['/'] + base;
    var cut := RSplitOnce(s, '/').value;
    LastSplitUnique(cut.0, cut.1, prefix, base, '/');
  }

  // ---------------------------------------------------------------------------------------
  // Building names

  /** `Name::push`. It checks nothing. */
  function Push(n: Name, suffix: string): Name {
    Name(suffix, n.tokens + [n.base], n.absolute)
  }

  lemma PushAppends(n: Name, suffix: string)
    ensures Display(Push(n, suffix)) == Display(n) + "/" + suffix
  {
    SlashedAppend(n.tokens, n.base);
    var lead := Led(n.absolute, "");
    var m := Slashed(n.tokens) + n.base;
    assert Slashed(n.tokens) + n.base + "/" == m + "/";
    Assoc(lead, m, "/");
    Assoc(lead, m + "/", suffix);
  }

  /** A pushed name is valid exactly if the suffix is a valid token, and then it parses back. */
  lemma PushKeepsValid(n: Name, suffix: string)
    requires ValidName(n)
    ensures ValidName(Push(n, suffix)) <==> ValidToken(suffix)
    ensures ValidToken(suffix) ==> Parse(Display(n) + "/" + suffix) == Ok(Push(n, suffix))
  {
    if ValidToken(suffix) {
      PushAppends(n, suffix);
      ParseIffPrinted(Display(n) + "/" + suffix, Push(n, suffix));
    }
  }

  /** The DDS name: `rt` and the like in front, `Request` and the like behind. */
  function DdsName(n: Name, kind: string, node: NodeName, suffix: string): string {
    kind + (if n.absolute then "" else node.namespace) + "/" + Slashed(n.tokens) + n.base + suffix
  }

  /** `Name::to_dds_name`. */
  method ToDdsName(n: Name, kind: string, node: NodeName, suffix: string) returns (result: string)
    requires kind == [] || kind[|kind| - 1] != '/'
    ensures result == DdsName(n, kind, node, suffix)
  {
    result := kind;
    if !n.absolute {
      result := result + node.namespace;
    }
    result := result + "/";
    ghost var start := result;
    for i := 0 to |n.tokens|
      invariant result == start + Slashed(n.tokens[..i])
    {
      SlashedAppend(n.tokens[..i], n.tokens[i]);
      assert n.tokens[..i + 1] == n.tokens[..i] + [n.tokens[i]];
      Assoc(start, Slashed(n.tokens[..i]) + n.tokens[i], "/");
      Assoc(start, Slashed(n.tokens[..i]), n.tokens[i]);
      result := result + n.tokens[i] + "/";
    }
    assert n.tokens[..|n.tokens|] == n.tokens;
    assert start == kind + (if n.absolute then "" else node.namespace) + "/";
    result := result + n.base + suffix;
  }

  /** The DDS name of an absolute name is its printed form, that of a relative one is in the namespace
      of the node, between the prefix and the suffix. */
  lemma DdsNameIs(n: Name, kind: string, node: NodeName, suffix: string)
    ensures n.absolute ==> DdsName(n, kind, node, suffix) == kind + Display(n) + suffix
    ensures !n.absolute ==> DdsName(n, kind, node, suffix) == kind + node.namespace + "/" + Display(n) + suffix
  {
    var m := Slashed(n.tokens) + n.base;
    assert "" + m == m;
    if n.absolute {
      assert kind + "" + "/" + Slashed(n.tokens) + n.base == kind + ("/" + m);
    } else {
      assert kind + node.namespace + "/" + Slashed(n.tokens) + n.base == kind + node.namespace + "/" + m;
    }
  }

  /** `resolve_fqn` of the Zenoh backend. */
  function ResolveFqn(n: Name, node: NodeName): string {
    if n.absolute then Display(n)
    else if node.namespace == "/" then "/" + Display(n)
    else node.namespace + "/" + Display(n)
  }

  /** The two backends resolve a name to the same string exactly if it is absolute or the node is
      not in the root namespace; there the DDS name of a relative name has a doubled slash. */
  lemma BackendsAgreeIff(n: Name, kind: string, node: NodeName, suffix: string)
    ensures DdsName(n, kind, node, suffix) == kind + ResolveFqn(n, node) + suffix
            <==> n.absolute || node.namespace != "/"
    ensures !n.absolute && node.namespace == "/" ==>
              DdsName(n, kind, node, suffix) == kind + "/" + ResolveFqn(n, node) + suffix
  {
    DdsNameIs(n, kind, node, suffix);
    var d := Display(n);
    if !n.absolute {
      if node.namespace == "/" {
        assert kind + "/" + "/" + d == kind + "/" + ("/" + d);
        assert |kind + "/" + ("/" + d) + suffix| != |kind + ("/" + d) + suffix|;
      } else {
        Assoc(kind, node.namespace + "/", d);
        Assoc(kind, node.namespace, "/");
      }
    }
  }

  /** The full name of an accepted node is what its base name resolves to as a relative name, and it
      is cut at its last slash into namespace and base again. */
  lemma FullyQualifiedResolves(node: NodeName)
    requires ValidNodeName(node)
    ensures FullyQualifiedName(node) == ResolveFqn(Name(node.base, [], false), node)
    ensures FullyQualifiedName(node) == (if node.namespace == "/" then "/" else node.namespace + "/") + node.base
    ensures RSplitOnce(FullyQualifiedName(node), '/') ==
              Some((if node.namespace == "/" then "" else node.namespace, node.base))
  {
    var fqn := FullyQualifiedName(node);
    assert fqn == Stem(node) + ['/'] + node.base;
    assert Free(node.base, '/');
    var cut := RSplitOnce(fqn, '/').value;
    LastSplitUnique(cut.0, cut.1, Stem(node), node.base, '/');
    assert Display(Name(node.base, [], false)) == node.base;
  }

  // ---------------------------------------------------------------------------------------
  // The names of the services and topics of an action

  /** The namespace of the node would do as a namespace of a name. */
  predicate NamespaceTokensValid(node: NodeName) {
    node.namespace == "/" || (node.namespace != [] && AllValid(Split(node.namespace[1..], '/')))
  }

  /** The tokens a resolved name consists of. */
  function ResolvedTokens(n: Name, node: NodeName): seq<string>
    requires ValidNodeName(node)
  {
    (if n.absolute || node.namespace == "/" then [] else Split(node.namespace[1..], '/')) + n.tokens + [n.base]
  }

  lemma NestedIsJoin(namespace: string, own: seq<string>)
    requires Absolute(namespace) && own != []
    ensures namespace + "/" + Join(own, '/') == "/" + Join(Split(namespace[1..], '/') + own, '/')
  {
    var rest := namespace[1..];
    JoinSplit(rest, '/');
    JoinConcat(Split(rest, '/'), own);
    assert namespace == "/" + rest;
    Assoc("/", rest, "/");
    Assoc("/", rest + "/", Join(own, '/'));
  }

  lemma ResolvedIsJoin(n: Name, node: NodeName)
    requires ValidNodeName(node)
    ensures ResolveFqn(n, node) == "/" + Join(ResolvedTokens(n, node), '/')
  {
    var own := n.tokens + [n.base];
    SlashedIsJoin(n.tokens, n.base);
    if n.absolute || node.namespace == "/" {
      assert ResolvedTokens(n, node) == own;
      assert !n.absolute ==> Display(n) == Join(own, '/');
    } else {
      NestedIsJoin(node.namespace, own);
      assert ResolvedTokens(n, node) == Split(node.namespace[1..], '/') + own;
      assert Display(n) == Join(own, '/');
    }
  }

  lemma ResolvedFree(n: Name, node: NodeName)
    requires ValidName(n) && ValidNodeName(node)
    ensures AllFree(ResolvedTokens(n, node), '/')
    ensures AllValid(ResolvedTokens(n, node)) <==> n.absolute || NamespaceTokensValid(node)
  {
    var own := n.tokens + [n.base];
    assert AllValid(own);
    ValidIsFree(own);
    if n.absolute || node.namespace == "/" {
      assert ResolvedTokens(n, node) == own;
    } else {
      var before := Split(node.namespace[1..], '/');
      JoinSplit(node.namespace[1..], '/');
      assert ResolvedTokens(n, node) == before + own;
      if AllValid(before + own) {
        forall i | 0 <= i < |before| ensures ValidToken(before[i]) {
          assert ValidToken((before + own)[i]);
        }
      }
    }
  }

  /** `action_sub_name` of the Zenoh backend. */
  function ActionSubName(actionFqn: string, sub: string): Checked<Name> {
    NewName(actionFqn + "/_action", sub)
  }

  /** How the DDS backend names the same thing. */
  function PushedSubName(n: Name, sub: string): Name {
    Push(Push(n, "_action"), sub)
  }

  lemma ActionNamespace(n: Name, node: NodeName)
    requires ValidName(n) && ValidNodeName(node)
    ensures var tokens := ResolvedTokens(n, node) + ["_action"];
            && ResolveFqn(n, node) + "/_action" == Led(true, Join(tokens, '/'))
            && AllFree(tokens, '/')
            && (AllValid(tokens) <==> n.absolute || NamespaceTokensValid(node))
  {
    var resolved := ResolvedTokens(n, node);
    var tokens := resolved + ["_action"];
    ResolvedIsJoin(n, node);
    ResolvedFree(n, node);
    JoinAppend(resolved, "_action");
    Assoc("/", Join(resolved, '/'), "/_action");
    assert Join(tokens, '/') == Join(resolved, '/') + "/_action";
    assert ValidToken("_action");
    assert AllValid(tokens) <==> AllValid(resolved) by {
      if AllValid(tokens) {
        assert forall i :: 0 <= i < |resolved| ==> tokens[i] == resolved[i];
      }
    }
  }

  /** Both spellings of the part resolve to the same tokens. */
  lemma SubNamesResolve(n: Name, node: NodeName, sub: string)
    requires ValidName(n) && ValidNodeName(node)
    ensures ResolveFqn(Name(sub, ResolvedTokens(n, node) + ["_action"], true), node) ==
            ResolveFqn(PushedSubName(n, sub), node)
  {
    var tokens := ResolvedTokens(n, node) + ["_action"];
    var pushed := PushedSubName(n, sub);
    ResolvedIsJoin(Name(sub, tokens, true), node);
    ResolvedIsJoin(pushed, node);
    assert ResolvedTokens(Name(sub, tokens, true), node) == tokens + [sub];
    assert ResolvedTokens(pushed, node) == tokens + [sub];
  }

  /** The Zenoh backend accepts the name of a part of an action exactly if the part is a valid
      token and the name is absolute or the namespace of the node consists of valid tokens, which
      `NodeName::new` does not ask for. Then `resolve_fqn` gives the string of the name that the
      DDS backend builds by `push`. What the DDS backend then makes of that name is the same string
      under the condition of `BackendsAgreeIff`. */
  lemma ActionNamesAgree(n: Name, node: NodeName, sub: string)
    requires ValidName(n) && ValidNodeName(node)
    ensures var r := ActionSubName(ResolveFqn(n, node), sub);
            && (r.Ok? <==> ValidToken(sub) && (n.absolute || NamespaceTokensValid(node)))
            && (r.Ok? ==> ValidName(r.value) && r.value.absolute
                          && ResolveFqn(r.value, node) == ResolveFqn(PushedSubName(n, sub), node))
  {
    var tokens := ResolvedTokens(n, node) + ["_action"];
    ActionNamespace(n, node);
    NewNameOfJoined(tokens, sub, true);
    if ActionSubName(ResolveFqn(n, node), sub).Ok? {
      SubNamesResolve(n, node, sub);
    }
  }

  /** A node that `NodeName::new` accepts and whose relative actions the Zenoh backend refuses. */
  lemma ActionRefused()
    ensures var node := NodeName("/a//b", "n");
            ValidNodeName(node) && ActionSubName(ResolveFqn(Name("x", [], false), node), "status").Err?
  {
    var node := NodeName("/a//b", "n");
    assert AllChars("/a//b", PathChar) && AllChars("n", WordChar);
    assert ValidNodeName(node);
    var n := Name("x", [], false);
    assert ValidName(n);
    var before := Split("a//b", '/');
    assert !AllValid(before) by {
      SplitHead("a", '/', "/b");
      SplitHead("", '/', "b");
      assert "a" + ['/'] + "/b" == "a//b" && "" + ['/'] + "b" == "/b";
      assert !ValidToken(before[1]);
    }
    assert node.namespace[1..] == "a//b";
    ActionNamesAgree(n, node, "status");
  }
}
