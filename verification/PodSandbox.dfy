/** Splitting a container's labels into sandbox labels and annotations (toPodSandboxConfig in
    pouch/convertor/cri.go).  The labels are a map walked in an arbitrary order. */
module PodSandbox {
  import opened GoStrings
  import opened SliceUtils

  const PREFIX := "annotation."

  const POUCH_TYPE_KEY := "io.kubernetes.pouch.type"

  const DOCKER_TYPE_KEY := "io.kubernetes.docker.type"

  /** A map object; several records may refer to the same one. */
  class Dict {
    var entries: map<string, string>

    constructor ()
      ensures entries == map[]
    {
      entries := map[];
    }
  }

  class ContainerConfig {
    const labels: map<string, string>
    const specAnnotation: Dict?

    constructor (labels: map<string, string>, specAnnotation: Dict?)
      ensures this.labels == labels && this.specAnnotation == specAnnotation
    {
      this.labels, this.specAnnotation := labels, specAnnotation;
    }
  }

  // ---- What the labels mean ---------------------------------------------------------------

  predicate IsAnnotation(k: string) { HasPrefix(k, PREFIX) }

  predicate IsLabel(k: string) { !IsAnnotation(k) && k != POUCH_TYPE_KEY && k != DOCKER_TYPE_KEY }

  function LabelsOf(labels: map<string, string>): map<string, string> {
    map k | k in labels && IsLabel(k) :: labels[k]
  }

  /** Dropping the prefix forgets nothing. */
  lemma PrefixIsInvertible(k: string)
    requires IsAnnotation(k)
    ensures PREFIX + TrimPrefix(k, PREFIX) == k
  {
    assert k == k[..|PREFIX|] + k[|PREFIX|..];
  }

  lemma TrimIsInjective()
    ensures forall k, k' :: IsAnnotation(k) && IsAnnotation(k') && TrimPrefix(k, PREFIX) == TrimPrefix(k', PREFIX) ==>
              k == k'
  {
    forall k, k' | IsAnnotation(k) && IsAnnotation(k') && TrimPrefix(k, PREFIX) == TrimPrefix(k', PREFIX)
      ensures k == k'
    {
      PrefixIsInvertible(k);
      PrefixIsInvertible(k');
    }
  }

  /** The prefixed labels with the prefix removed once. */
  function AnnotationsOf(labels: map<string, string>): map<string, string> {
    TrimIsInjective();
    map k | k in labels && IsAnnotation(k) :: TrimPrefix(k, PREFIX) := labels[k]
  }

  lemma PrefixedKey(a: string)
    ensures IsAnnotation(PREFIX + a) && TrimPrefix(PREFIX + a, PREFIX) == a
  {
  }

  /** An annotation is exactly a label under the prefixed name. */
  lemma AnnotationLookup(labels: map<string, string>, a: string)
    ensures a in AnnotationsOf(labels) <==> "annotation." + a in labels
    ensures "annotation." + a in labels ==> AnnotationsOf(labels)[a] == labels["annotation." + a]
  {
    PrefixedKey(a);
    TrimIsInjective();
    if PREFIX + a in labels {
      assert TrimPrefix(PREFIX + a, PREFIX) in AnnotationsOf(labels);
    }
    if a in AnnotationsOf(labels) {
      var k :| k in labels && IsAnnotation(k) && TrimPrefix(k, PREFIX) == a;
      PrefixIsInvertible(k);
    }
  }

  /** The labels of the sandbox are those of the container, apart from annotations and the two
      type markers. */
  lemma LabelLookup(labels: map<string, string>, k: string)
    ensures k in LabelsOf(labels) <==>
              && k in labels && k != "io.kubernetes.pouch.type" && k != "io.kubernetes.docker.type"
              && !exists a: string :: k == "annotation." + a
    ensures k in LabelsOf(labels) ==> LabelsOf(labels)[k] == labels[k]
  {
    PrefixParts(k, PREFIX);
  }

  /** No label is lost but the two type markers, and none counts twice. */
  lemma LabelsAreSplit(labels: map<string, string>, k: string)
    requires k in labels
    ensures k in LabelsOf(labels) || IsAnnotation(k) || k == POUCH_TYPE_KEY || k == DOCKER_TYPE_KEY
    ensures !(k in LabelsOf(labels) && IsAnnotation(k))
    ensures k in LabelsOf(labels) ==> LabelsOf(labels)[k] == labels[k]
    ensures IsAnnotation(k) ==>
              && TrimPrefix(k, PREFIX) in AnnotationsOf(labels)
              && AnnotationsOf(labels)[TrimPrefix(k, PREFIX)] == labels[k]
  {
    if IsAnnotation(k) {
      PrefixIsInvertible(k);
      AnnotationLookup(labels, TrimPrefix(k, PREFIX));
    }
  }

  // ---- The code -----------------------------------------------------------------------------

  /** The labels among the keys handled so far. */
  ghost predicate LabelsUpTo(result: map<string, string>, labels: map<string, string>, rest: set<string>) {
    forall k :: (k in result <==> k in labels && k !in rest && IsLabel(k)) && (k in result ==> result[k] == labels[k])
  }

  /** The annotations among the keys handled so far, on top of `base`. */
  ghost predicate AnnotationsUpTo(result: map<string, string>, base: map<string, string>, labels: map<string, string>,
                                  rest: set<string>) {
    forall a :: (a in result <==> a in base || (PREFIX + a in labels && PREFIX + a !in rest))
                && (a in result ==>
                      result[a] == if PREFIX + a in labels && PREFIX + a !in rest then labels[PREFIX + a] else base[a])
  }

  lemma AnnotationStep(result: map<string, string>, base: map<string, string>, labels: map<string, string>,
                       rest: set<string>, k: string)
    requires AnnotationsUpTo(result, base, labels, rest) && k in rest && k in labels
    ensures IsAnnotation(k) ==> AnnotationsUpTo(result[TrimPrefix(k, PREFIX) := labels[k]], base, labels, rest - {k})
    ensures !IsAnnotation(k) ==> AnnotationsUpTo(result, base, labels, rest - {k})
  {
    if IsAnnotation(k) {
      PrefixIsInvertible(k);
    }
    forall a
      ensures PREFIX + a == k <==> IsAnnotation(k) && a == TrimPrefix(k, PREFIX)
    {
      PrefixedKey(a);
    }
  }

  lemma LabelStep(result: map<string, string>, labels: map<string, string>, rest: set<string>, k: string)
    requires LabelsUpTo(result, labels, rest) && k in rest && k in labels
    ensures LabelsUpTo(if IsLabel(k) then result[k := labels[k]] else result, labels, rest - {k})
  {
  }

  lemma NothingHandled(labels: map<string, string>, base: map<string, string>)
    ensures LabelsUpTo(map[], labels, labels.Keys) && AnnotationsUpTo(base, base, labels, labels.Keys)
  {
  }

  lemma LabelsComplete(result: map<string, string>, labels: map<string, string>)
    requires LabelsUpTo(result, labels, {})
    ensures result == LabelsOf(labels)
  {
  }

  lemma AnnotationsComplete(result: map<string, string>, base: map<string, string>, labels: map<string, string>)
    requires AnnotationsUpTo(result, base, labels, {})
    ensures result == base + AnnotationsOf(labels)
  {
    forall a
      ensures a in AnnotationsOf(labels) <==> PREFIX + a in labels
      ensures PREFIX + a in labels ==> AnnotationsOf(labels)[a] == labels[PREFIX + a]
    {
      AnnotationLookup(labels, a);
    }
  }

  /** The test on a label's key. */
  method KeepsLabel(k: string) returns (keep: bool)
    ensures keep <==> IsLabel(k)
  {
    var typeKey := StringInSlice([POUCH_TYPE_KEY, DOCKER_TYPE_KEY], k);
    keep := !HasPrefix(k, PREFIX) && !typeKey;
  }

  /** Adds an entry to a map that may not exist yet. */
  method AddAnnotation(annotations: Dict?, key: string, value: string) returns (result: Dict)
    modifies annotations
    ensures annotations != null ==> result == annotations && result.entries == old(annotations.entries)[key := value]
    ensures annotations == null ==> fresh(result) && result.entries == map[key := value]
  {
    if annotations == null {
      result := new Dict();
    } else {
      result := annotations;
    }
    result.entries := result.entries[key := value];
  }

  /** What has been built after the keys outside `rest`: the label map, and annotations on top
      of `base`, held in `annotations` unless there are none. */
  ghost predicate Built(c: ContainerConfig, base: map<string, string>, rest: set<string>, labels: map<string, string>,
                        annotations: Dict?)
    reads annotations
  {
    && LabelsUpTo(labels, c.labels, rest)
    && AnnotationsUpTo(if annotations != null then annotations.entries else map[], base, c.labels, rest)
    && (c.specAnnotation != null ==> annotations == c.specAnnotation)
    && (c.specAnnotation == null && annotations != null ==> annotations.entries != map[])
  }

  /** One label. */
  method HandleLabel(c: ContainerConfig, k: string, labels: map<string, string>, annotations: Dict?,
                     ghost base: map<string, string>, ghost rest: set<string>)
    returns (labels': map<string, string>, annotations': Dict?)
    requires k in c.labels && k in rest && Built(c, base, rest, labels, annotations)
    modifies annotations
    ensures Built(c, base, rest - {k}, labels', annotations')
    ensures annotations' == annotations || (annotations == null && fresh(annotations'))
  {
    LabelStep(labels, c.labels, rest, k);
    AnnotationStep(if annotations != null then annotations.entries else map[], base, c.labels, rest, k);
    labels', annotations' := labels, annotations;
    var keep := KeepsLabel(k);
    if keep {
      labels' := labels[k := c.labels[k]];
    }
    if HasPrefix(k, PREFIX) {
      annotations' := AddAnnotation(annotations, TrimPrefix(k, PREFIX), c.labels[k]);
      assert TrimPrefix(k, PREFIX) in annotations'.entries;
    }
  }

  /** The label part of toPodSandboxConfig.  An existing annotation map is not copied: the
      sandbox shares it with the container, and the new entries go into it. */
  method ToPodSandboxConfig(c: ContainerConfig) returns (labels: map<string, string>, annotations: Dict?)
    modifies c.specAnnotation
    ensures labels == LabelsOf(c.labels)
    ensures c.specAnnotation != null ==>
              && annotations == c.specAnnotation
              && annotations.entries == old(c.specAnnotation.entries) + AnnotationsOf(c.labels)
    ensures c.specAnnotation == null && AnnotationsOf(c.labels) == map[] ==> annotations == null
    ensures c.specAnnotation == null && AnnotationsOf(c.labels) != map[] ==>
              annotations != null && fresh(annotations) && annotations.entries == AnnotationsOf(c.labels)
  {
    labels, annotations := map[], c.specAnnotation;
    ghost var base := if c.specAnnotation != null then c.specAnnotation.entries else map[];
    var rest := c.labels.Keys;
    NothingHandled(c.labels, base);
    while rest != {}
      invariant rest <= c.labels.Keys && Built(c, base, rest, labels, annotations)
      invariant annotations == c.specAnnotation || fresh(annotations)
      decreases rest
    {
      var k :| k in rest;
      labels, annotations := HandleLabel(c, k, labels, annotations, base, rest);
      rest := rest - {k};
    }
    LabelsComplete(labels, c.labels);
    AnnotationsComplete(if annotations != null then annotations.entries else map[], base, c.labels);
  }
}
