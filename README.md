# Site-configuration bootstrap of the XBoard front end

This project models `initSiteConfig`, the step of the front end's entry point
that runs once at start-up. It takes the result of the guest-configuration
request and updates three pieces of page metadata:

- **Title.** The document title becomes the trimmed `app_name`. If that is
  unusable, it becomes the trimmed `app_description`. Otherwise it is `XBoard`.
- **Favicon.** With a truthy `logo`, the first element with id `favicon` is
  removed. A new `<link id="favicon" rel="icon" type="image/x-icon">` pointing at
  the logo is then appended to the head.
- **Description.** With a truthy `app_description`, the `content` attribute of the
  first `<meta name="description">` is overwritten, if such an element exists.

A request that throws, or a response without `data`, only resets the title to
`XBoard`.

Structure:

- `wrappers.dfy` (`Wrappers`): the `Option` type.
- `js_values.dfy` (`JsValues`): JavaScript values as they come out of the payload.
  A property is `Undefined`, a string, or a non-string value that carries its
  truthiness and the text `String(v)` produces for it. This module also has truthiness
  and `String.prototype.trim`. Trim is defined over the ECMAScript whitespace and
  line-terminator characters, and it is proved to be the unique trimming of its input.
- `dom.dfy` (`Dom`): the document. Its value form is `Page`: the title, the head's
  children and the elements after the head, in tree order. `Document` is the live
  object, and its fields are updated in place. It offers the DOM calls the script
  makes: `getElementById`/`querySelector` (`Query`), `remove`,
  `head.appendChild` and `setAttribute`. Each method is specified by a function on `Page`.
- `site_config.dfy` (`SiteConfig`): the fetch outcome (`Failed | NoData | Data`),
  title resolution, and the specification `ApplyConfig` of the whole step. It also holds
  the imperative `InitSiteConfig`, which is proved to implement `ApplyConfig`, and
  the lemmas about precedence, failure paths, the favicon, the description and idempotence.

Notes on behaviour:

- Only the first element with id `favicon` is removed (src/main.ts:70-73). Any later ones stay.
- Only the first `<meta name="description">` is written (src/main.ts:90-92).
- The description is written whenever `app_description` is truthy (src/main.ts:89).
  So a whitespace-only description is written untrimmed, even though the title skips it
  (`BlankDescriptionStillWritten`).
- Running the step twice gives the same page as running it once if the page started with
  at most one `favicon` element (`Idempotent`). With two it may not:
  `IdempotenceNeedsOneFavicon` gives one such page.

## Model

| member | source | states |
|---|---|---|
| JsValues.Trim | src/main.ts:54-58 | the result is a slice of the input with only whitespace cut off at either end, neither starting nor ending with whitespace; it is empty exactly when the input is all whitespace |
| JsValues.TrimUnique | src/main.ts:54-58 | any string that is such a trimming of s equals Trim(s), so Trim is fully determined by that description |
| JsValues.Truthy | src/main.ts:68-89 | JavaScript truthiness of a payload field (no contract); it decides the `logo` and `app_description` branches, characterised by NoLogoKeepsElements, FaviconReplaced and DescriptionWritten |
| Dom.Matches | src/main.ts:70-90 | whether an element has a given id, or is a `meta` with a given `name` (no contract); FindFirst is stated in terms of it |
| Dom.FindFirst | src/main.ts:70-71 | getElementById / querySelector give the first match in tree order: the index matches and no earlier element does, and None exactly when nothing matches |
| Dom.RemovedAt | src/main.ts:71-73 | `remove()` deletes exactly the chosen element; every other element keeps its relative order and the title is unchanged |
| Dom.Document.Remove | src/main.ts:71-73 | the live document after `remove()` is RemovedAt of the old one |
| Dom.AppendedToHead | src/main.ts:83 | `head.appendChild(e)` puts e last among the head's children, immediately before the first element after the head in tree order; nothing else moves |
| Dom.Document.AppendChildToHead | src/main.ts:83 | the live document after `appendChild` is AppendedToHead of the old one |
| Dom.WithAttributeAt | src/main.ts:92 | `setAttribute` changes only the chosen element, only in the named attribute, and keeps its tag and position |
| Dom.Document.SetAttribute | src/main.ts:92 | the live document after `setAttribute` is WithAttributeAt of the old one |
| Dom.CountRemoveAt | src/main.ts:70-73 | removing one element lowers the number of favicon-id elements by one exactly when it was one of them |
| Dom.FindFirstUnique | src/main.ts:70 | when exactly one element has the id, getElementById finds that element |
| SiteConfig.UsableForTitle | src/main.ts:54-57 | the guard of a title branch holds exactly for a string value that is not all whitespace, so its truthiness test adds nothing |
| SiteConfig.ResolveTitle | src/main.ts:53-62 | the chosen title is never empty, never starts or ends with whitespace, and is the default or the trimmed text of one of the two fields |
| SiteConfig.ApplyConfig | src/main.ts:39-106 | the page after the step, as a function of the old page and the fetch outcome (no contract); characterised by DataTitle, FailureOnlyResetsTitle, FaviconReplaced, NoLogoKeepsElements, DescriptionWritten and Idempotent, and implemented by InitSiteConfig |
| SiteConfig.WithoutFirstFavicon | src/main.ts:70-73 | removing the first element with id `favicon` keeps the title and leaves exactly the other elements, in order; the head shrinks by one only when that element was a head child |
| SiteConfig.ReplaceFavicon | src/main.ts:68-83 | the favicon step (no contract); characterised by ReplaceFaviconShape, ReplaceFaviconCount, ReplaceFaviconAddsNoMeta, ReplaceFaviconKeepsMeta and ReplaceFaviconFixed |
| SiteConfig.UpdateDescription | src/main.ts:89-95 | the description step (no contract); characterised by UpdateDescriptionKeepsMatches, UpdateDescriptionOnlyContent and UpdateDescriptionIdempotent |
| SiteConfig.FaviconLink | src/main.ts:76-80 | the created `link` element with id `favicon`, rel `icon`, type `image/x-icon` and the logo as href (no contract); characterised by FaviconLinkIsNotMeta |
| SiteConfig.InitSiteConfig | src/main.ts:39-106 | running the step on the live document leaves it equal to ApplyConfig of its old value for the given fetch outcome |
| SiteConfig.DataTitle | src/main.ts:64 | with data, the final title is the resolved title; the favicon and description steps do not touch it |
| SiteConfig.NameWins | src/main.ts:54-55 | a string app_name that is not all whitespace becomes the title, trimmed, whatever app_description holds |
| SiteConfig.DescriptionSecond | src/main.ts:57-58 | otherwise a string app_description that is not all whitespace becomes the title, trimmed |
| SiteConfig.DefaultOtherwise | src/main.ts:53-61 | otherwise the title is exactly XBoard |
| SiteConfig.IgnoredLikeUndefined | src/main.ts:54-57 | for the title, a non-string or whitespace-only field behaves exactly like a missing one, in either position |
| SiteConfig.FailureOnlyResetsTitle | src/main.ts:96-104 | on a thrown fetch or a response without data, the page is unchanged except that the title becomes XBoard |
| SiteConfig.FaviconLinkIsNotMeta | src/main.ts:76-80 | the created link has the favicon id and is never taken for the description meta tag |
| SiteConfig.ReplaceFaviconShape | src/main.ts:68-83 | the favicon step removes the first favicon element, keeps all other elements in order and puts the new link last in the head; the head's length grows by one unless the removed element was a head child, in which case it stays the same |
| SiteConfig.ReplaceFaviconCount | src/main.ts:68-83 | the favicon step leaves the number of favicon elements unchanged, or makes it one if there were none |
| SiteConfig.FaviconReplaced | src/main.ts:68-95 | with a truthy logo and at most one favicon element before, the final page has exactly one, and the new link is last in the head; a string logo is its href unchanged |
| SiteConfig.NoLogoKeepsElements | src/main.ts:68-95 | without a truthy logo no element is added, removed or moved, and only a `content` attribute can change; with a falsy description too, the elements are identical |
| SiteConfig.UpdateDescriptionKeepsMatches | src/main.ts:89-95 | the description step keeps the title and every element's position and selector matches, and changes no element other than the first description meta tag |
| SiteConfig.UpdateDescriptionOnlyContent | src/main.ts:89-95 | the description step adds, removes and moves no element, keeps every tag, and changes no attribute other than `content` |
| SiteConfig.ReplaceFaviconAddsNoMeta | src/main.ts:76-83 | the favicon step never creates a description meta element |
| SiteConfig.ReplaceFaviconKeepsMeta | src/main.ts:70-90 | a description meta tag that is not the removed favicon element is still found by the description lookup after the favicon step |
| SiteConfig.DescriptionWritten | src/main.ts:89-95 | with a truthy app_description, the first description meta tag of the final page has it, untrimmed, as content (a string value exactly as given); if there was no such tag, none is created; if there was one that the favicon step does not remove, the written tag exists |
| SiteConfig.BlankDescriptionStillWritten | src/main.ts:57-92 | a whitespace-only app_description leaves the title at XBoard but is still written to the meta tag as given |
| SiteConfig.UpdateDescriptionIdempotent | src/main.ts:89-95 | writing the same description twice gives the same page as writing it once |
| SiteConfig.ReplaceFaviconFixed | src/main.ts:70-83 | a page whose only favicon element is the logo's link, last in the head, is unchanged by the favicon step |
| SiteConfig.Idempotent | src/main.ts:39-106 | applying the same outcome twice equals applying it once, provided the page started with at most one favicon element |
| SiteConfig.IdempotenceNeedsOneFavicon | src/main.ts:70-83 | for one head with two favicon elements, a second run gives a different page, so the precondition of Idempotent cannot simply be dropped |

## Left out

- App bootstrap (`createApp`, plugin installation, `mount`, src/main.ts:10-16): framework wiring with no state of its own.
- Production hardening (src/main.ts:19-36): it depends on a build-time flag and calls console-disabling and security helpers; that code is not part of this model.
- Logging (`log`, `warn`): it has no effect on the modelled state.
- The request to the backend and the promise plumbing (src/main.ts:42, 109-111): the request is replaced by its outcome. `Failed` stands for any throw from the request. `NoData` stands for a falsy response or a falsy `data`. A truthy `data` whose fields cannot be read is `Data` with `Undefined` fields.
- SiteConfig.InitSiteConfig: assumes only the request can throw, so the catch path that resets the title after a partial update is not modelled.
- JsValues.ToJsString: JavaScript's `String(v)` for a non-string value is not computed. It is a parameter of the value (`NonString(truthy, text)`).
- Dom.Document: the elements are two sequences, the head's children and then the elements after the head in tree order. Neither sequence is nested, so removing an element does not model its descendants being removed. The `html`, `head` and `body` elements themselves are not modelled. Tag names are compared literally (lower case), as the HTML parser stores them.
- Dom.Page: `document.title` is a plain field. In the browser, assigning it writes the text of the head's `<title>` element, and creates that element when the head has none. The `<title>` element is not in the element list. So FailureOnlyResetsTitle and NoLogoKeepsElements do not cover the `<title>` element being created on a page without one. The title getter's whitespace collapsing is not modelled either.
- Strings are sequences of Unicode scalar values, not of UTF-16 code units. Nothing the step computes depends on the difference: every character `trim` removes lies in the Basic Multilingual Plane.
- The `href` property returns the URL resolved against the document base. Only the attribute value as assigned is modelled.
- vite.config.ts: bundler and dev-server configuration with no program logic.
