/** Completing image references (AddDefaultRegistryIfMissing in ctrd/image/image.go). */
module ImageRef {
  import opened GoStrings

  /** A registry is recognised by a dot or a colon. */
  predicate LooksLikeRegistry(s: string) { '.' in s || ':' in s }

  /** The text up to the first slash, or all of it. */
  function Head(ref: string): string { if Index(ref, '/') == -1 then ref else ref[..Index(ref, '/')] }

  /** The text after the first slash. */
  function Remainder(ref: string): string
    requires '/' in ref
  {
    ref[Index(ref, '/') + 1..]
  }

  /** The reference names its registry. */
  predicate Explicit(ref: string) { '/' in ref && LooksLikeRegistry(Head(ref)) }

  function AddDefaultRegistryIfMissing(ref: string, defaultRegistry: string, defaultNamespace: string): string {
    var idx := Index(ref, '/');
    var missing := idx == -1 || !LooksLikeRegistry(ref[..idx]);
    var registry := if missing then defaultRegistry else ref[..idx];
    var remainder := if missing then ref else ref[idx + 1..];
    var full :=
      if registry == defaultRegistry && '/' !in remainder then defaultNamespace + ['/'] + remainder else remainder;
    registry + ['/'] + full
  }

  lemma HeadOf(a: string, b: string)
    requires '/' !in a
    ensures var ref := a + ['/'] + b; '/' in ref && Head(ref) == a && Remainder(ref) == b
  {
    var ref := a + ['/'] + b;
    assert ref[|a|] == '/';
    assert forall k :: 0 <= k < |a| ==> ref[k] == a[k] && a[k] != '/';
    assert ref[..|a|] == a;
    assert ref[|a| + 1..] == b;
  }

  lemma HeadAndRemainder(ref: string)
    requires '/' in ref
    ensures ref == Head(ref) + ['/'] + Remainder(ref) && '/' !in Head(ref)
  {
  }

  /** What normalisation does to the three kinds of references. */
  lemma Normalise(ref: string, registry: string, namespace: string)
    ensures var r := AddDefaultRegistryIfMissing(ref, registry, namespace);
            && (!Explicit(ref) ==> r == registry + ['/'] + if '/' in ref then ref else namespace + ['/'] + ref)
            && (Explicit(ref) && Head(ref) == registry && '/' !in Remainder(ref) ==>
                  r == registry + ['/'] + (namespace + ['/'] + Remainder(ref)))
            && (Explicit(ref) && (Head(ref) != registry || '/' in Remainder(ref)) ==> r == ref)
  {
    if '/' in ref {
      HeadAndRemainder(ref);
    }
  }

  /** Every reference: without a slash it gets registry and namespace; a first part with a dot
      or a colon is a registry, and only the default one is completed by the namespace; any
      other first part belongs to the name. */
  lemma Completes(first: string, rest: string, registry: string, namespace: string)
    requires '/' !in first
    ensures AddDefaultRegistryIfMissing(first, registry, namespace) == registry + ['/'] + (namespace + ['/'] + first)
    ensures '.' in first || ':' in first ==>
              AddDefaultRegistryIfMissing(first + ['/'] + rest, registry, namespace) ==
              first + ['/'] + if first == registry && '/' !in rest then namespace + ['/'] + rest else rest
    ensures '.' !in first && ':' !in first ==>
              AddDefaultRegistryIfMissing(first + ['/'] + rest, registry, namespace) ==
              registry + ['/'] + (first + ['/'] + rest)
  {
    HeadOf(first, rest);
    Normalise(first, registry, namespace);
    Normalise(first + ['/'] + rest, registry, namespace);
  }

  /** The fixed points: references with an explicit registry that is not the default or that
      already carry a namespace. */
  lemma FixedPoints(ref: string, registry: string, namespace: string)
    ensures AddDefaultRegistryIfMissing(ref, registry, namespace) == ref <==>
            Explicit(ref) && (Head(ref) != registry || '/' in Remainder(ref))
  {
    Normalise(ref, registry, namespace);
    if '/' in ref {
      HeadAndRemainder(ref);
    }
  }

  /** The head of a path is the head of its first part. */
  lemma HeadOfJoined(a: string, b: string)
    ensures '/' in a + ['/'] + b && Head(a + ['/'] + b) == Head(a)
    ensures '/' in a ==> Remainder(a + ['/'] + b) == Remainder(a) + ['/'] + b
  {
    if '/' in a {
      HeadAndRemainder(a);
      var rest := Remainder(a) + ['/'] + b;
      assert a + ['/'] + b == Head(a) + ['/'] + rest;
      HeadOf(Head(a), rest);
    } else {
      HeadOf(a, b);
    }
  }

  /** Normalising twice is normalising once exactly when the reference named its registry or
      the default registry looks like one. */
  lemma Idempotent(ref: string, registry: string, namespace: string)
    ensures var once := AddDefaultRegistryIfMissing(ref, registry, namespace);
            AddDefaultRegistryIfMissing(once, registry, namespace) == once <==>
            Explicit(ref) || LooksLikeRegistry(Head(registry))
  {
    var once := AddDefaultRegistryIfMissing(ref, registry, namespace);
    Normalise(ref, registry, namespace);
    FixedPoints(once, registry, namespace);
    if !Explicit(ref) || (Head(ref) == registry && '/' !in Remainder(ref)) {
      var path := if !Explicit(ref) then (if '/' in ref then ref else namespace + ['/'] + ref)
                  else namespace + ['/'] + Remainder(ref);
      assert once == registry + ['/'] + path && '/' in path;
      HeadOfJoined(registry, path);
      if '/' !in registry {
        HeadOf(registry, path);
      }
      if Explicit(ref) {
        HeadAndRemainder(ref);
      }
    } else {
      FixedPoints(ref, registry, namespace);
    }
  }

  /** For instance with the default registry "reg", which is taken for a namespace and added
      again. */
  lemma PlainRegistryIsAddedAgain(ref: string, registry: string, namespace: string)
    requires ref == "a" && registry == "reg" && namespace == "lib"
    ensures var once := AddDefaultRegistryIfMissing(ref, registry, namespace);
            AddDefaultRegistryIfMissing(once, registry, namespace) == registry + ['/'] + once != once
  {
    var once := AddDefaultRegistryIfMissing(ref, registry, namespace);
    Normalise(ref, registry, namespace);
    HeadOf(registry, namespace + ['/'] + ref);
    Normalise(once, registry, namespace);
  }

  /** A bare name, the name in the default namespace and the name at the default registry are
      one and the same image. */
  lemma ShortFormsAgree(name: string, registry: string, namespace: string)
    requires '/' !in name
    requires '/' !in registry && LooksLikeRegistry(registry)
    requires '/' !in namespace && !LooksLikeRegistry(namespace)
    ensures var full := registry + ['/'] + (namespace + ['/'] + name);
            && AddDefaultRegistryIfMissing(name, registry, namespace) == full
            && AddDefaultRegistryIfMissing(namespace + ['/'] + name, registry, namespace) == full
            && AddDefaultRegistryIfMissing(registry + ['/'] + name, registry, namespace) == full
            && AddDefaultRegistryIfMissing(full, registry, namespace) == full
  {
    HeadOf(namespace, name);
    HeadOf(registry, name);
    HeadOf(registry, namespace + ['/'] + name);
    Normalise(name, registry, namespace);
    Normalise(namespace + ['/'] + name, registry, namespace);
    Normalise(registry + ['/'] + name, registry, namespace);
    Normalise(registry + ['/'] + (namespace + ['/'] + name), registry, namespace);
  }
}
