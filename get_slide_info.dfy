/** getSlideInfo (utils/getSlideInfo.js): what the current location says about the slide shown. */
module GetSlideInfo {
  import opened Wrappers
  import opened Strings
  import Query

  /** The route names the function compares against. */
  datatype Routes = Routes(coursePath: string, acceptedAlert: string, acceptedSolutions: string, ltiSlide: string)

  datatype SlideInfo = SlideInfo(slideId: string, isReview: bool, isLti: bool, isAcceptedAlert: bool, isAcceptedSolutions: bool)

  /** The slide described by a location's path and parsed query, or `None` (null) outside a
      course. `isLti` is kept as its truthiness. */
  function GetSlideInfo(pathname: string, search: Query.Query, routes: Routes): (r: Option<SlideInfo>)
    ensures r.None? <==> !StartsWith(ToLower(pathname), "/" + routes.coursePath)
    ensures r.Some? ==> (r.value.isReview <==> Query.Has(search, "CheckQueueItemId"))
    ensures r.Some? ==> (r.value.isAcceptedSolutions <==> ToLower(LastPiece(pathname, '/')) == routes.acceptedSolutions)
    ensures r.Some? && Query.Truthy(search, "slideId") ==>
      && r.value.slideId == search["slideId"].value
      && (r.value.isAcceptedAlert <==> ToLower(LastPiece(pathname, '/')) == routes.acceptedAlert)
      && (r.value.isLti <==> r.value.isAcceptedAlert || ToLower(LastPiece(pathname, '/')) == routes.ltiSlide
                             || Query.Truthy(search, "isLti"))
    ensures r.Some? && !Query.Truthy(search, "slideId") ==>
      && !r.value.isLti && !r.value.isAcceptedAlert
      && r.value.slideId == LastPiece(LastPiece(pathname, '/'), '_')
      && '_' !in r.value.slideId && '/' !in r.value.slideId
      && exists k :: 0 <= k <= |pathname| && pathname[k..] == r.value.slideId
  {
    if !StartsWith(ToLower(pathname), "/" + routes.coursePath) then None
    else
      var slideSlugOrAction := LastPiece(pathname, '/');
      var isReview := Query.Has(search, "CheckQueueItemId");
      var isAcceptedSolutions := ToLower(slideSlugOrAction) == routes.acceptedSolutions;
      if Query.Truthy(search, "slideId") then
        var action := ToLower(slideSlugOrAction);
        var isAcceptedAlert := action == routes.acceptedAlert;
        var isLti := action == routes.ltiSlide || isAcceptedAlert || Query.Truthy(search, "isLti");
        Some(SlideInfo(search["slideId"].value, isReview, isLti, isAcceptedAlert, isAcceptedSolutions))
      else
        var slideId := LastPiece(slideSlugOrAction, '_');
        assert slideSlugOrAction == pathname[|pathname| - |slideSlugOrAction|..];
        assert slideId == pathname[|pathname| - |slideId|..];
        Some(SlideInfo(slideId, isReview, false, false, isAcceptedSolutions))
  }

  /** For a slide's own address, `<directory>/<slug>_<id>` inside a course with no `slideId` in
      the query, the slide id is the part after the last underscore. */
  lemma SlideIdFromSlug(routes: Routes, pathname: string, directory: string, slug: string, id: string, search: Query.Query)
    requires pathname == directory + ['/'] + slug + ['_'] + id
    requires StartsWith(ToLower(directory), "/" + routes.coursePath)
    requires '/' !in id && '_' !in id && '/' !in slug
    requires !Query.Truthy(search, "slideId")
    ensures GetSlideInfo(pathname, search, routes).Some?
    ensures GetSlideInfo(pathname, search, routes).value.slideId == id
  {
    SlugSegments(pathname, directory, slug, id);
    assert pathname[..|directory|] == directory;
    ToLowerPrefix(directory, pathname, "/" + routes.coursePath);
  }

  /** The last path segment of such an address is `<slug>_<id>`, and its last piece is the id. */
  lemma SlugSegments(pathname: string, directory: string, slug: string, id: string)
    requires pathname == directory + ['/'] + slug + ['_'] + id
    requires '/' !in id && '_' !in id && '/' !in slug
    ensures LastPiece(pathname, '/') == slug + ['_'] + id
    ensures LastPiece(slug + ['_'] + id, '_') == id
  {
    var last := slug + ['_'] + id;
    assert pathname == directory + ['/'] + last;
    assert '/' !in last;
    LastPieceAfter(directory, '/', last);
    LastPieceAfter(slug, '_', id);
  }

  /** Lower-casing works character by character, so it keeps prefixes. */
  lemma ToLowerPrefix(a: string, s: string, p: string)
    requires |a| <= |s| && s[..|a|] == a
    requires StartsWith(ToLower(a), p)
    ensures StartsWith(ToLower(s), p)
  {
    assert ToLower(s)[..|a|] == ToLower(a);
    assert ToLower(s)[..|p|] == ToLower(a)[..|p|];
  }
}
