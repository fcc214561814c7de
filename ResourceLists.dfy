/** The two lists the resource page derives from the fetched resources: the
    subjects offered in the subject selector, and the resources shown for the
    selected subject. */
module ResourceLists {

  datatype Subject = Subject(name: string)

  /** A fetched resource record (a chapter): its id, its name and the subject
      it belongs to. Its links are not inspected by these derivations. */
  datatype Resource = Resource(id: string, name: string, subject: Subject)

  /** `data.map((resource) => resource.subject.name)` */
  function SubjectNames(data: seq<Resource>): (names: seq<string>)
    ensures |names| == |data|
    ensures forall i :: 0 <= i < |data| ==> names[i] == data[i].subject.name
  {
    if data == [] then [] else SubjectNames(data[..|data| - 1]) + [data[|data| - 1].subject.name]
  }

  predicate NoDuplicates(xs: seq<string>) {
    forall i, j :: 0 <= i < j < |xs| ==> xs[i] != xs[j]
  }

  /** The position of the first occurrence of `x` in `xs`. */
  function FirstIndex(xs: seq<string>, x: string): (k: nat)
    requires x in xs
    ensures k < |xs| && xs[k] == x
    ensures forall j :: 0 <= j < k ==> xs[j] != x
  {
    if xs[0] == x then 0 else 1 + FirstIndex(xs[1..], x)
  }

  /** `[...new Set(xs)]`: the elements of `xs` in the order in which a `Set`
      first receives them, each once. */
  function Distinct(xs: seq<string>): (r: seq<string>)
    ensures forall x :: x in r <==> x in xs
    ensures NoDuplicates(r)
    ensures |r| <= |xs|
  {
    if xs == [] then []
    else
      var seen := Distinct(xs[..|xs| - 1]);
      var x := xs[|xs| - 1];
      if x in seen then seen else seen + [x]
  }

  lemma FirstIndexPrefix(xs: seq<string>, n: nat, x: string)
    requires n <= |xs| && x in xs[..n]
    ensures FirstIndex(xs, x) == FirstIndex(xs[..n], x)
  {
  }

  /** The deduplicated list keeps first-occurrence order: an earlier entry
      first occurs earlier in the input. */
  lemma {:induction false} DistinctOrder(xs: seq<string>, i: nat, j: nat)
    requires i < j < |Distinct(xs)|
    ensures FirstIndex(xs, Distinct(xs)[i]) < FirstIndex(xs, Distinct(xs)[j])
  {
    var init := xs[..|xs| - 1];
    var seen := Distinct(init);
    var x := xs[|xs| - 1];
    var r := Distinct(xs);
    assert r[i] in seen;
    FirstIndexPrefix(xs, |xs| - 1, r[i]);
    if j < |seen| {
      FirstIndexPrefix(xs, |xs| - 1, r[j]);
      DistinctOrder(init, i, j);
    } else {
      assert r[j] == x && x !in init;
    }
  }

  /** The subjects offered in the subject selector. */
  function SubjectOptions(data: seq<Resource>): (subjects: seq<string>)
    ensures NoDuplicates(subjects)
    ensures forall s :: s in subjects <==> exists k :: 0 <= k < |data| && data[k].subject.name == s
  {
    var names := SubjectNames(data);
    assert forall s :: s in names <==> exists k :: 0 <= k < |data| && data[k].subject.name == s by {
      forall s | s in names ensures exists k :: 0 <= k < |data| && data[k].subject.name == s {
        var k :| 0 <= k < |names| && names[k] == s;
        assert data[k].subject.name == s;
      }
    }
    Distinct(names)
  }

  /** The subject options come in the order of their first appearance among
      the fetched resources. */
  lemma SubjectOptionsOrder(data: seq<Resource>, i: nat, j: nat)
    requires i < j < |SubjectOptions(data)|
    ensures FirstIndex(SubjectNames(data), SubjectOptions(data)[i])
          < FirstIndex(SubjectNames(data), SubjectOptions(data)[j])
  {
  }

  /** `resources.filter((resource) => resource.subject.name === selectedSubject)` */
  function FilterBySubject(resources: seq<Resource>, selected: string): (r: seq<Resource>)
    ensures |r| <= |resources|
    ensures forall k :: 0 <= k < |r| ==> r[k].subject.name == selected && r[k] in resources
  {
    if resources == [] then []
    else
      var rest := FilterBySubject(resources[1..], selected);
      if resources[0].subject.name == selected then [resources[0]] + rest else rest
  }

  /** Filtering a concatenation filters each part: together with the one-element
      case this pins the result down as the subsequence of matching resources. */
  lemma {:induction false} FilterConcat(a: seq<Resource>, b: seq<Resource>, selected: string)
    ensures FilterBySubject(a + b, selected) == FilterBySubject(a, selected) + FilterBySubject(b, selected)
  {
    if a == [] {
      assert a + b == b;
    } else {
      assert (a + b)[0] == a[0] && (a + b)[1..] == a[1..] + b;
      FilterConcat(a[1..], b, selected);
    }
  }

  lemma FilterSingle(x: Resource, selected: string)
    ensures FilterBySubject([x], selected) == if x.subject.name == selected then [x] else []
  {
  }

  /** Each matching resource is kept as many times as it occurs, and no other. */
  lemma {:induction false} FilterCount(resources: seq<Resource>, selected: string, x: Resource)
    ensures multiset(FilterBySubject(resources, selected))[x]
         == if x.subject.name == selected then multiset(resources)[x] else 0
  {
    if resources != [] {
      assert resources == [resources[0]] + resources[1..];
      FilterCount(resources[1..], selected, x);
    }
  }

  /** `a` is `b` with some elements left out, the rest in their order. */
  predicate IsSubsequence(a: seq<Resource>, b: seq<Resource>)
    decreases |b|
  {
    if a == [] then true
    else if b == [] then false
    else if a[0] == b[0] then IsSubsequence(a[1..], b[1..])
    else IsSubsequence(a, b[1..])
  }

  /** The filtered resources keep their original order. */
  lemma {:induction false} FilterSubsequence(resources: seq<Resource>, selected: string)
    ensures IsSubsequence(FilterBySubject(resources, selected), resources)
  {
    if resources != [] {
      FilterSubsequence(resources[1..], selected);
    }
  }

  /** Filtering twice by the same subject changes nothing. */
  lemma {:induction false} FilterIdempotent(resources: seq<Resource>, selected: string)
    ensures FilterBySubject(FilterBySubject(resources, selected), selected) == FilterBySubject(resources, selected)
  {
    if resources != [] {
      FilterIdempotent(resources[1..], selected);
      var rest := FilterBySubject(resources[1..], selected);
      if resources[0].subject.name == selected {
        assert ([resources[0]] + rest)[1..] == rest;
      }
    }
  }

  /** A subject is offered exactly when choosing it shows at least one resource. */
  lemma SubjectOptionShowsResources(data: seq<Resource>, s: string)
    ensures s in SubjectOptions(data) <==> |FilterBySubject(data, s)| > 0
  {
  }
}
