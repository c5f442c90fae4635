/**
 * The part of the browser document that the site-configuration step reads and
 * writes: the title and the elements, with the DOM calls it makes on them
 * (getElementById, querySelector, remove, head.appendChild, setAttribute).
 */
module Dom {
  import opened Wrappers

  /** An element: its tag name (lower case, as the HTML parser stores it) and its content attributes. */
  datatype Elem = Elem(tag: string, attrs: map<string, string>)

  /** The two lookups the page performs. */
  datatype Selector =
    | ById(id: string)         // document.getElementById(id)
    | MetaNamed(name: string)  // document.querySelector('meta[name="<name>"]')

  predicate Matches(e: Elem, sel: Selector) {
    match sel
    case ById(id) => "id" in e.attrs && e.attrs["id"] == id
    case MetaNamed(n) => e.tag == "meta" && "name" in e.attrs && e.attrs["name"] == n
  }

  /** The index of the first element in es that sel matches, if any. */
  function FindFirst(es: seq<Elem>, sel: Selector): (r: Option<nat>)
    ensures r.Some? ==> r.value < |es| && Matches(es[r.value], sel)
    ensures r.Some? ==> forall k :: 0 <= k < r.value ==> !Matches(es[k], sel)
    ensures r.None? <==> forall k :: 0 <= k < |es| ==> !Matches(es[k], sel)
  {
    if es == [] then None
    else if Matches(es[0], sel) then Some(0)
    else
      match FindFirst(es[1..], sel)
      case None => None
      case Some(j) => Some(j + 1)
  }

  /** The number of elements of es that sel matches. */
  function Count(es: seq<Elem>, sel: Selector): nat {
    if es == [] then 0 else (if Matches(es[0], sel) then 1 else 0) + Count(es[1..], sel)
  }

  lemma {:induction false} CountConcat(a: seq<Elem>, b: seq<Elem>, sel: Selector)
    ensures Count(a + b, sel) == Count(a, sel) + Count(b, sel)
  {
    if a == [] {
      assert a + b == b;
    } else {
      assert (a + b)[0] == a[0] && (a + b)[1..] == a[1..] + b;
      CountConcat(a[1..], b, sel);
    }
  }

  /** No match at all is the same as a count of zero. */
  lemma {:induction false} CountZero(es: seq<Elem>, sel: Selector)
    ensures Count(es, sel) == 0 <==> FindFirst(es, sel).None?
  {
    if es != [] {
      CountZero(es[1..], sel);
    }
  }

  /** Removing the element at index i lowers the count by one exactly when that element matched. */
  lemma CountRemoveAt(es: seq<Elem>, i: nat, sel: Selector)
    requires i < |es|
    ensures Count(es[..i] + es[i + 1..], sel) + (if Matches(es[i], sel) then 1 else 0) == Count(es, sel)
  {
    assert es == es[..i] + ([es[i]] + es[i + 1..]);
    CountConcat(es[..i], [es[i]] + es[i + 1..], sel);
    CountConcat([es[i]], es[i + 1..], sel);
    CountConcat(es[..i], es[i + 1..], sel);
  }

  /** Inserting e at index n raises the count by one exactly when e matches. */
  lemma CountInsert(es: seq<Elem>, n: nat, e: Elem, sel: Selector)
    requires n <= |es|
    ensures Count(es[..n] + [e] + es[n..], sel) == Count(es, sel) + (if Matches(e, sel) then 1 else 0)
  {
    CountConcat(es[..n] + [e], es[n..], sel);
    CountConcat(es[..n], [e], sel);
    CountConcat(es[..n], es[n..], sel);
    assert es == es[..n] + es[n..];
  }

  /** Count sees only which elements match. */
  lemma {:induction false} CountCongruent(a: seq<Elem>, b: seq<Elem>, sel: Selector)
    requires |a| == |b| && forall k :: 0 <= k < |a| ==> Matches(a[k], sel) == Matches(b[k], sel)
    ensures Count(a, sel) == Count(b, sel)
  {
    if a != [] {
      CountCongruent(a[1..], b[1..], sel);
    }
  }

  /** FindFirst sees only which elements match. */
  lemma FindFirstCongruent(a: seq<Elem>, b: seq<Elem>, sel: Selector)
    requires |a| == |b| && forall k :: 0 <= k < |a| ==> Matches(a[k], sel) == Matches(b[k], sel)
    ensures FindFirst(a, sel) == FindFirst(b, sel)
  {
  }

  /** When exactly one element matches and index k matches, FindFirst finds k. */
  lemma FindFirstUnique(es: seq<Elem>, k: nat, sel: Selector)
    requires k < |es| && Matches(es[k], sel) && Count(es, sel) == 1
    ensures FindFirst(es, sel) == Some(k)
  {
    var f := FindFirst(es, sel);
    CountZero(es, sel);
    if f.value != k {
      CountRemoveAt(es, f.value, sel);
      var rest := es[..f.value] + es[f.value + 1..];
      var k' := if k < f.value then k else k - 1;
      assert rest[k'] == es[k];
      CountZero(rest, sel);
      assert false;
    }
  }

  /**
   * The document as a value: its title, the head's children in order, and the
   * elements after the head in tree order. Tree order is head + body.
   */
  datatype Page = Page(title: string, head: seq<Elem>, body: seq<Elem>) {
    function Elements(): seq<Elem> { head + body }
  }

  /** Two pages with the same title, the same elements and the same head length are equal. */
  lemma PageEq(p: Page, q: Page)
    requires p.title == q.title && |p.head| == |q.head| && p.Elements() == q.Elements()
    ensures p == q
  {
    assert p.head == p.Elements()[..|p.head|] && q.head == q.Elements()[..|q.head|];
    assert p.body == p.Elements()[|p.head|..] && q.body == q.Elements()[|q.head|..];
  }

  /** element.remove() on the i-th element in tree order. */
  function RemovedAt(p: Page, i: nat): (r: Page)
    requires i < |p.Elements()|
    ensures r.title == p.title
    ensures r.Elements() == p.Elements()[..i] + p.Elements()[i + 1..]
    ensures |r.head| == if i < |p.head| then |p.head| - 1 else |p.head|
  {
    if i < |p.head| then
      var r := p.(head := p.head[..i] + p.head[i + 1..]);
      assert r.Elements() == p.Elements()[..i] + p.Elements()[i + 1..];
      r
    else
      var j := i - |p.head|;
      var r := p.(body := p.body[..j] + p.body[j + 1..]);
      assert r.Elements() == p.Elements()[..i] + p.Elements()[i + 1..];
      r
  }

  /** document.head.appendChild(e): e becomes the head's last child, right before the body in tree order. */
  function AppendedToHead(p: Page, e: Elem): (r: Page)
    ensures r.title == p.title && |r.head| == |p.head| + 1 && r.head[|p.head|] == e
    ensures r.Elements() == p.Elements()[..|p.head|] + [e] + p.Elements()[|p.head|..]
  {
    var r := p.(head := p.head + [e]);
    assert p.Elements()[..|p.head|] == p.head && p.Elements()[|p.head|..] == p.body;
    r
  }

  /** element.setAttribute(name, value) on the i-th element in tree order. */
  function WithAttributeAt(p: Page, i: nat, name: string, value: string): (r: Page)
    requires i < |p.Elements()|
    ensures r.title == p.title && |r.head| == |p.head| && |r.body| == |p.body|
    ensures |r.Elements()| == |p.Elements()|
    ensures r.Elements()[i] == Elem(p.Elements()[i].tag, p.Elements()[i].attrs[name := value])
    ensures forall k :: 0 <= k < |p.Elements()| && k != i ==> r.Elements()[k] == p.Elements()[k]
  {
    var e := p.Elements()[i];
    var e' := Elem(e.tag, e.attrs[name := value]);
    if i < |p.head| then p.(head := p.head[i := e'])
    else p.(body := p.body[i - |p.head| := e'])
  }

  /** Setting the same attribute to the same value twice is the same as setting it once. */
  lemma WithAttributeAtTwice(p: Page, i: nat, name: string, value: string)
    requires i < |p.Elements()|
    ensures WithAttributeAt(WithAttributeAt(p, i, name, value), i, name, value) == WithAttributeAt(p, i, name, value)
  {
    var once := WithAttributeAt(p, i, name, value);
    var e := p.Elements()[i];
    assert e.attrs[name := value][name := value] == e.attrs[name := value];
    assert once.Elements()[i].attrs[name := value] == once.Elements()[i].attrs;
  }

  /** The live document whose title and element list the page's script updates in place. */
  class Document {
    var title: string
    var head: seq<Elem>
    var body: seq<Elem>

    function Snapshot(): Page
      reads this
    {
      Page(title, head, body)
    }

    /** getElementById / querySelector: the tree-order index of the first match. */
    function Query(sel: Selector): Option<nat>
      reads this
    {
      FindFirst(head + body, sel)
    }

    method Remove(i: nat)
      requires i < |head| + |body|
      modifies this
      ensures Snapshot() == RemovedAt(old(Snapshot()), i)
    {
      if i < |head| {
        head := head[..i] + head[i + 1..];
      } else {
        body := body[..i - |head|] + body[i - |head| + 1..];
      }
    }

    method AppendChildToHead(e: Elem)
      modifies this
      ensures Snapshot() == AppendedToHead(old(Snapshot()), e)
    {
      head := head + [e];
    }

    method SetAttribute(i: nat, name: string, value: string)
      requires i < |head| + |body|
      modifies this
      ensures Snapshot() == WithAttributeAt(old(Snapshot()), i, name, value)
    {
      var e := (head + body)[i];
      var e' := Elem(e.tag, e.attrs[name := value]);
      if i < |head| {
        head := head[i := e'];
      } else {
        body := body[i - |head| := e'];
      }
    }
  }
}
