/**
 * initSiteConfig from src/main.ts: after one call to the guest-configuration
 * endpoint, set the page title, replace the favicon link and overwrite the
 * description meta tag, falling back to the default title on every failure.
 */
module SiteConfig {
  import opened Wrappers
  import opened JsValues
  import opened Dom

  const DefaultTitle: string := "XBoard"
  const FaviconId: string := "favicon"

  /** The `data` object of the guest-configuration response. */
  datatype Config = Config(appName: JsValue, appDescription: JsValue, logo: JsValue)

  /**
   * What the fetch produced: it threw, it returned a response without a truthy
   * `data`, or it returned `data`.
   */
  datatype FetchOutcome = Failed | NoData | Data(config: Config)

  /**
   * The guard of each title branch: a truthy string that is non-empty after
   * trimming. The truthiness test is subsumed: the guard holds exactly for a
   * string that is not all whitespace.
   */
  predicate UsableForTitle(v: JsValue)
    ensures UsableForTitle(v) <==> v.Str? && !AllWhitespace(v.s)
  {
    Truthy(v) && v.Str? && Trim(v.s) != []
  }

  /** The title chosen from the payload: trimmed app_name, else trimmed app_description, else DefaultTitle. */
  function ResolveTitle(name: JsValue, description: JsValue): (t: string)
    ensures t != [] && !IsWhitespace(t[0]) && !IsWhitespace(t[|t| - 1])
    ensures t == DefaultTitle || (name.Str? && t == Trim(name.s)) || (description.Str? && t == Trim(description.s))
  {
    if UsableForTitle(name) then Trim(name.s)
    else if UsableForTitle(description) then Trim(description.s)
    else DefaultTitle
  }

  /** The link element the script creates for a logo URL. */
  function FaviconLink(href: string): Elem {
    Elem("link", map["id" := FaviconId, "rel" := "icon", "type" := "image/x-icon", "href" := href])
  }

  /** The elements the favicon step keeps: p's elements without its first favicon element. */
  function KeptByFaviconStep(p: Page): seq<Elem> {
    match FindFirst(p.Elements(), ById(FaviconId))
    case None => p.Elements()
    case Some(i) => p.Elements()[..i] + p.Elements()[i + 1..]
  }

  /** Remove the first element with id "favicon", if any. */
  function WithoutFirstFavicon(p: Page): (q: Page)
    ensures q.title == p.title && q.Elements() == KeptByFaviconStep(p)
    ensures |q.head| == |p.head| - (match FindFirst(p.Elements(), ById(FaviconId))
                                    case None => 0
                                    case Some(i) => if i < |p.head| then 1 else 0)
  {
    match FindFirst(p.Elements(), ById(FaviconId))
    case None => p
    case Some(i) => RemovedAt(p, i)
  }

  /** Remove the first element with id "favicon", if any, then append a fresh favicon link to the head. */
  function ReplaceFavicon(p: Page, href: string): Page {
    AppendedToHead(WithoutFirstFavicon(p), FaviconLink(href))
  }

  /** Set the content attribute of the first description meta element, if there is one. */
  function UpdateDescription(p: Page, content: string): Page {
    match FindFirst(p.Elements(), MetaNamed("description"))
    case None => p
    case Some(i) => WithAttributeAt(p, i, "content", content)
  }

  /** The page after initSiteConfig has run with the given fetch outcome. */
  function ApplyConfig(p: Page, outcome: FetchOutcome): Page {
    match outcome
    case Data(c) =>
      var titled := p.(title := ResolveTitle(c.appName, c.appDescription));
      var withIcon := if Truthy(c.logo) then ReplaceFavicon(titled, ToJsString(c.logo)) else titled;
      if Truthy(c.appDescription) then UpdateDescription(withIcon, ToJsString(c.appDescription)) else withIcon
    case _ => p.(title := DefaultTitle)
  }

  /** initSiteConfig, with the fetch replaced by its outcome. */
  method InitSiteConfig(doc: Document, outcome: FetchOutcome)
    modifies doc
    ensures doc.Snapshot() == ApplyConfig(old(doc.Snapshot()), outcome)
  {
    match outcome {
      case Data(c) =>
        doc.title := ResolveTitle(c.appName, c.appDescription);
        if Truthy(c.logo) {
          var oldFavicon := doc.Query(ById(FaviconId));
          if oldFavicon.Some? {
            doc.Remove(oldFavicon.value);
          }
          doc.AppendChildToHead(FaviconLink(ToJsString(c.logo)));
        }
        if Truthy(c.appDescription) {
          var metaDescription := doc.Query(MetaNamed("description"));
          if metaDescription.Some? {
            doc.SetAttribute(metaDescription.value, "content", ToJsString(c.appDescription));
          }
        }
      case _ =>
        doc.title := DefaultTitle;
    }
  }

  // ---------------------------------------------------------------------------
  // Title precedence

  /** With data, the title is ResolveTitle's choice: the favicon and description steps leave it alone. */
  lemma DataTitle(p: Page, c: Config)
    ensures ApplyConfig(p, Data(c)).title == ResolveTitle(c.appName, c.appDescription)
  {
    var titled := p.(title := ResolveTitle(c.appName, c.appDescription));
    var withIcon := if Truthy(c.logo) then ReplaceFavicon(titled, ToJsString(c.logo)) else titled;
    assert withIcon.title == titled.title;
    if Truthy(c.appDescription) {
      assert UpdateDescription(withIcon, ToJsString(c.appDescription)).title == withIcon.title;
    }
  }

  /** A non-blank string app_name is the title, whatever app_description holds. */
  lemma NameWins(p: Page, c: Config)
    requires c.appName.Str? && !AllWhitespace(c.appName.s)
    ensures ApplyConfig(p, Data(c)).title == Trim(c.appName.s)
  {
    DataTitle(p, c);
  }

  /** Otherwise a non-blank string app_description is the title. */
  lemma DescriptionSecond(p: Page, c: Config)
    requires !(c.appName.Str? && !AllWhitespace(c.appName.s))
    requires c.appDescription.Str? && !AllWhitespace(c.appDescription.s)
    ensures ApplyConfig(p, Data(c)).title == Trim(c.appDescription.s)
  {
    DataTitle(p, c);
  }

  /** Otherwise the title is the default. */
  lemma DefaultOtherwise(p: Page, c: Config)
    requires !(c.appName.Str? && !AllWhitespace(c.appName.s))
    requires !(c.appDescription.Str? && !AllWhitespace(c.appDescription.s))
    ensures ApplyConfig(p, Data(c)).title == DefaultTitle
  {
    DataTitle(p, c);
  }

  /** For the title, a non-string or a whitespace-only string is the same as a missing field. */
  lemma IgnoredLikeUndefined(v: JsValue, other: JsValue)
    requires v.NonString? || (v.Str? && AllWhitespace(v.s))
    ensures ResolveTitle(v, other) == ResolveTitle(Undefined, other)
    ensures ResolveTitle(other, v) == ResolveTitle(other, Undefined)
  {
  }

  // ---------------------------------------------------------------------------
  // Failure paths

  /** Without data, only the title changes, and it becomes the default. */
  lemma FailureOnlyResetsTitle(p: Page, outcome: FetchOutcome)
    requires !outcome.Data?
    ensures ApplyConfig(p, outcome) == p.(title := DefaultTitle)
  {
  }

  // ---------------------------------------------------------------------------
  // Favicon

  ghost predicate IsFavicon(e: Elem) {
    Matches(e, ById(FaviconId))
  }

  /** The favicon link is not selected as the description meta element. */
  lemma FaviconLinkIsNotMeta(href: string)
    ensures IsFavicon(FaviconLink(href)) && !Matches(FaviconLink(href), MetaNamed("description"))
  {
  }

  /**
   * The favicon step removes the first favicon element, keeps every other
   * element in order, and puts the new link last in the head; the head loses
   * an element only when the removed element was one of its children.
   */
  lemma ReplaceFaviconShape(p: Page, href: string)
    ensures var r := ReplaceFavicon(p, href); var n := |r.head|;
      r.title == p.title && n >= 1 && r.head[n - 1] == FaviconLink(href)
      && n == |p.head| + (match FindFirst(p.Elements(), ById(FaviconId))
                          case None => 1
                          case Some(i) => if i < |p.head| then 0 else 1)
      && r.Elements()[..n - 1] + r.Elements()[n..] == KeptByFaviconStep(p)
  {
    var q := WithoutFirstFavicon(p);
    var r := ReplaceFavicon(p, href);
    var n := |q.head|;
    assert r.Elements() == q.Elements()[..n] + [FaviconLink(href)] + q.Elements()[n..];
    assert r.Elements()[..n] + r.Elements()[n + 1..] == q.Elements();
  }

  /** The favicon step leaves the number of favicon elements as it was, or one if there was none. */
  lemma ReplaceFaviconCount(p: Page, href: string)
    ensures Count(ReplaceFavicon(p, href).Elements(), ById(FaviconId)) ==
      if Count(p.Elements(), ById(FaviconId)) == 0 then 1 else Count(p.Elements(), ById(FaviconId))
  {
    var q := WithoutFirstFavicon(p);
    var link := FaviconLink(href);
    FaviconLinkIsNotMeta(href);
    assert ReplaceFavicon(p, href).Elements() == q.Elements()[..|q.head|] + [link] + q.Elements()[|q.head|..];
    KeptCount(p);
    CountInsert(q.Elements(), |q.head|, link, ById(FaviconId));
  }

  /** Dropping the first favicon element lowers the count by one, unless there was none. */
  lemma KeptCount(p: Page)
    ensures Count(KeptByFaviconStep(p), ById(FaviconId)) ==
      if Count(p.Elements(), ById(FaviconId)) == 0 then 0 else Count(p.Elements(), ById(FaviconId)) - 1
  {
    CountZero(p.Elements(), ById(FaviconId));
    match FindFirst(p.Elements(), ById(FaviconId)) {
      case None =>
      case Some(i) =>
        assert KeptByFaviconStep(p) == p.Elements()[..i] + p.Elements()[i + 1..];
        CountRemoveAt(p.Elements(), i, ById(FaviconId));
    }
  }

  /** Setting the content attribute changes neither which elements are favicons nor which are description metas. */
  lemma UpdateDescriptionKeepsMatches(p: Page, content: string, sel: Selector)
    ensures var r := UpdateDescription(p, content);
      r.title == p.title && |r.head| == |p.head| && |r.Elements()| == |p.Elements()|
      && (forall k :: 0 <= k < |p.Elements()| ==> Matches(r.Elements()[k], sel) == Matches(p.Elements()[k], sel))
      && (forall k :: 0 <= k < |p.Elements()| && FindFirst(p.Elements(), MetaNamed("description")) != Some(k)
            ==> r.Elements()[k] == p.Elements()[k])
  {
  }

  /** The page after the favicon step when a truthy logo is present: one favicon exactly, the new link last in the head. */
  lemma {:induction false} FaviconReplaced(p: Page, c: Config)
    requires Truthy(c.logo) && Count(p.Elements(), ById(FaviconId)) <= 1
    ensures var r := ApplyConfig(p, Data(c)); var n := |r.head|;
      n >= 1 && r.head[n - 1] == FaviconLink(ToJsString(c.logo))
      && (c.logo.Str? ==> "href" in r.head[n - 1].attrs && r.head[n - 1].attrs["href"] == c.logo.s)
      && Count(r.Elements(), ById(FaviconId)) == 1
  {
    var fav := ById(FaviconId);
    var href := ToJsString(c.logo);
    var titled := p.(title := ResolveTitle(c.appName, c.appDescription));
    var withIcon := ReplaceFavicon(titled, href);
    ReplaceFaviconShape(titled, href);
    ReplaceFaviconCount(titled, href);
    var n := |withIcon.head|;
    if Truthy(c.appDescription) {
      var content := ToJsString(c.appDescription);
      var r := UpdateDescription(withIcon, content);
      UpdateDescriptionKeepsMatches(withIcon, content, fav);
      CountCongruent(r.Elements(), withIcon.Elements(), fav);
      assert withIcon.Elements()[n - 1] == FaviconLink(href);
      FaviconLinkIsNotMeta(href);
      assert r.Elements()[n - 1] == withIcon.Elements()[n - 1];
    }
  }

  /** The description step adds, removes and moves nothing, and changes no attribute other than content. */
  lemma UpdateDescriptionOnlyContent(p: Page, content: string)
    ensures var r := UpdateDescription(p, content);
      |r.head| == |p.head| && |r.Elements()| == |p.Elements()|
      && forall k :: 0 <= k < |p.Elements()| ==>
           r.Elements()[k].tag == p.Elements()[k].tag
           && r.Elements()[k].attrs - {"content"} == p.Elements()[k].attrs - {"content"}
  {
    match FindFirst(p.Elements(), MetaNamed("description")) {
      case None =>
      case Some(i) =>
        var e := p.Elements()[i];
        assert e.attrs["content" := content] - {"content"} == e.attrs - {"content"};
    }
  }

  /** Without a truthy logo the elements stay where they are and only a description's content can change. */
  lemma NoLogoKeepsElements(p: Page, c: Config)
    requires !Truthy(c.logo)
    ensures var r := ApplyConfig(p, Data(c));
      |r.head| == |p.head| && |r.Elements()| == |p.Elements()|
      && (forall k :: 0 <= k < |p.Elements()| ==>
            r.Elements()[k].tag == p.Elements()[k].tag
            && r.Elements()[k].attrs - {"content"} == p.Elements()[k].attrs - {"content"})
      && (!Truthy(c.appDescription) ==> r.Elements() == p.Elements())
  {
    var titled := p.(title := ResolveTitle(c.appName, c.appDescription));
    assert titled.Elements() == p.Elements();
    if Truthy(c.appDescription) {
      assert ApplyConfig(p, Data(c)) == UpdateDescription(titled, ToJsString(c.appDescription));
      UpdateDescriptionOnlyContent(titled, ToJsString(c.appDescription));
    } else {
      assert ApplyConfig(p, Data(c)) == titled;
    }
  }

  // ---------------------------------------------------------------------------
  // Description meta tag

  /** The favicon step never creates a description meta element. */
  lemma ReplaceFaviconAddsNoMeta(p: Page, href: string)
    requires FindFirst(p.Elements(), MetaNamed("description")).None?
    ensures FindFirst(ReplaceFavicon(p, href).Elements(), MetaNamed("description")).None?
  {
    var meta := MetaNamed("description");
    var E := p.Elements();
    var q := WithoutFirstFavicon(p);
    assert forall e :: e in q.Elements() ==> e in E;
    var W := ReplaceFavicon(p, href).Elements();
    assert W == q.Elements()[..|q.head|] + [FaviconLink(href)] + q.Elements()[|q.head|..];
    assert forall e :: e in W ==> e in q.Elements() || e == FaviconLink(href);
    FaviconLinkIsNotMeta(href);
    forall k | 0 <= k < |W| ensures !Matches(W[k], meta) {
      assert W[k] in W;
    }
  }

  /** A description meta element that is not the removed favicon survives the favicon step. */
  lemma ReplaceFaviconKeepsMeta(p: Page, href: string, k: nat)
    requires k < |p.Elements()| && Matches(p.Elements()[k], MetaNamed("description"))
    requires FindFirst(p.Elements(), ById(FaviconId)) != Some(k)
    ensures FindFirst(ReplaceFavicon(p, href).Elements(), MetaNamed("description")).Some?
  {
    var e := p.Elements()[k];
    var q := WithoutFirstFavicon(p);
    var kept := q.Elements();
    var k' := match FindFirst(p.Elements(), ById(FaviconId)) case None => k case Some(i) => if k < i then k else k - 1;
    assert k' < |kept| && kept[k'] == e;
    var n := |q.head|;
    var W := kept[..n] + [FaviconLink(href)] + kept[n..];
    assert ReplaceFavicon(p, href).Elements() == W;
    var j := if k' < n then k' else k' + 1;
    assert W[j] == e;
  }

  /**
   * With a truthy app_description, the first description meta element of the
   * resulting page carries it, untrimmed, as its content; if the page had no
   * description meta element, it still has none; if it had one that the favicon
   * step does not remove, the written tag exists.
   */
  lemma DescriptionWritten(p: Page, c: Config)
    requires Truthy(c.appDescription)
    ensures var r := ApplyConfig(p, Data(c)); var meta := MetaNamed("description");
      (FindFirst(r.Elements(), meta).Some? ==>
         var i := FindFirst(r.Elements(), meta).value;
         "content" in r.Elements()[i].attrs && r.Elements()[i].attrs["content"] == ToJsString(c.appDescription)
         && (c.appDescription.Str? ==> r.Elements()[i].attrs["content"] == c.appDescription.s))
      && (FindFirst(p.Elements(), meta).None? ==> FindFirst(r.Elements(), meta).None?)
      && ((exists k :: 0 <= k < |p.Elements()| && Matches(p.Elements()[k], meta)
             && !(Truthy(c.logo) && FindFirst(p.Elements(), ById(FaviconId)) == Some(k)))
          ==> FindFirst(r.Elements(), meta).Some?)
  {
    var meta := MetaNamed("description");
    var content := ToJsString(c.appDescription);
    var titled := p.(title := ResolveTitle(c.appName, c.appDescription));
    var withIcon := if Truthy(c.logo) then ReplaceFavicon(titled, ToJsString(c.logo)) else titled;
    var r := UpdateDescription(withIcon, content);
    assert ApplyConfig(p, Data(c)) == r;
    UpdateDescriptionKeepsMatches(withIcon, content, meta);
    FindFirstCongruent(r.Elements(), withIcon.Elements(), meta);
    if FindFirst(p.Elements(), meta).None? && Truthy(c.logo) {
      assert titled.Elements() == p.Elements();
      ReplaceFaviconAddsNoMeta(titled, ToJsString(c.logo));
    }
    if exists k :: 0 <= k < |p.Elements()| && Matches(p.Elements()[k], meta)
                   && !(Truthy(c.logo) && FindFirst(p.Elements(), ById(FaviconId)) == Some(k)) {
      var k :| 0 <= k < |p.Elements()| && Matches(p.Elements()[k], meta)
               && !(Truthy(c.logo) && FindFirst(p.Elements(), ById(FaviconId)) == Some(k));
      assert titled.Elements() == p.Elements();
      if Truthy(c.logo) {
        ReplaceFaviconKeepsMeta(titled, ToJsString(c.logo), k);
      } else {
        assert Matches(withIcon.Elements()[k], meta);
      }
    }
  }

  /** A whitespace-only app_description is skipped for the title but still written to the meta tag. */
  lemma BlankDescriptionStillWritten(p: Page, c: Config)
    requires !(c.appName.Str? && !AllWhitespace(c.appName.s))
    requires c.appDescription.Str? && c.appDescription.s != [] && AllWhitespace(c.appDescription.s)
    ensures var r := ApplyConfig(p, Data(c)); var found := FindFirst(r.Elements(), MetaNamed("description"));
      r.title == DefaultTitle
      && (found.Some? ==> r.Elements()[found.value].attrs["content"] == c.appDescription.s)
  {
    DefaultOtherwise(p, c);
    DescriptionWritten(p, c);
  }

  // ---------------------------------------------------------------------------
  // Idempotence

  lemma UpdateDescriptionIdempotent(p: Page, content: string)
    ensures UpdateDescription(UpdateDescription(p, content), content) == UpdateDescription(p, content)
  {
    var meta := MetaNamed("description");
    var once := UpdateDescription(p, content);
    UpdateDescriptionKeepsMatches(p, content, meta);
    FindFirstCongruent(once.Elements(), p.Elements(), meta);
    match FindFirst(p.Elements(), meta) {
      case None =>
      case Some(i) =>
        WithAttributeAtTwice(p, i, "content", content);
    }
  }

  /** A page whose only favicon is the link the logo produces, last in the head, is a fixed point of ReplaceFavicon. */
  lemma ReplaceFaviconFixed(p: Page, href: string)
    requires |p.head| >= 1 && p.head[|p.head| - 1] == FaviconLink(href)
    requires Count(p.Elements(), ById(FaviconId)) == 1
    ensures ReplaceFavicon(p, href) == p
  {
    var n := |p.head|;
    assert p.Elements()[n - 1] == FaviconLink(href);
    FindFirstUnique(p.Elements(), n - 1, ById(FaviconId));
    var r := ReplaceFavicon(p, href);
    assert r.head == p.head[..n - 1] + [FaviconLink(href)];
    assert r.head == p.head;
  }

  /**
   * Applying the same outcome twice leaves the page as applying it once,
   * provided the page held at most one favicon element to begin with.
   */
  lemma {:induction false} Idempotent(p: Page, outcome: FetchOutcome)
    requires Count(p.Elements(), ById(FaviconId)) <= 1
    ensures ApplyConfig(ApplyConfig(p, outcome), outcome) == ApplyConfig(p, outcome)
  {
    match outcome {
      case Data(c) =>
        var t := ResolveTitle(c.appName, c.appDescription);
        var once := ApplyConfig(p, outcome);
        var titled := p.(title := t);
        var withIcon := if Truthy(c.logo) then ReplaceFavicon(titled, ToJsString(c.logo)) else titled;
        if Truthy(c.logo) {
          FaviconReplaced(p, c);
          ReplaceFaviconShape(titled, ToJsString(c.logo));
          ReplaceFaviconFixed(once, ToJsString(c.logo));
        }
        if Truthy(c.appDescription) {
          UpdateDescriptionKeepsMatches(withIcon, ToJsString(c.appDescription), ById(FaviconId));
          UpdateDescriptionIdempotent(withIcon, ToJsString(c.appDescription));
        }
      case _ =>
    }
  }

  /** The precondition of Idempotent is needed: with two favicon elements the second run removes the other one. */
  lemma IdempotenceNeedsOneFavicon()
    ensures var first := Elem("link", map["id" := FaviconId]);
      var second := Elem("link", map["id" := FaviconId, "href" := "b"]);
      var p := Page("", [first, second], []);
      var o := Data(Config(Undefined, Undefined, Str("a")));
      Count(p.Elements(), ById(FaviconId)) == 2
      && ApplyConfig(ApplyConfig(p, o), o) != ApplyConfig(p, o)
  {
    var first := Elem("link", map["id" := FaviconId]);
    var second := Elem("link", map["id" := FaviconId, "href" := "b"]);
    var p := Page("", [first, second], []);
    var o := Data(Config(Undefined, Undefined, Str("a")));
    var link := FaviconLink("a");
    assert p.Elements() == [first, second] && [first, second][1..] == [second];
    assert Count([second], ById(FaviconId)) == 1;
    var once := ApplyConfig(p, o);
    assert once.head == [second, link];
    var twice := ApplyConfig(once, o);
    assert twice.head == [link, link];
    assert "rel" !in second.attrs && "rel" in link.attrs;
  }
}
