/** The course page's navigation state (components/course/Course/Course.js). */
module Course {
  import opened Wrappers

  datatype SlideRef = SlideRef(id: string, slug: string)
  datatype UnitInfo = UnitInfo(id: string, title: string, slides: seq<SlideRef>)
  /** The course as loaded; `units` can be absent. */
  datatype CourseInfo = CourseInfo(title: string, units: Option<seq<UnitInfo>>)

  /** The unit has a slide with this slug. */
  predicate HasSlide(unit: UnitInfo, slideId: string) {
    exists k :: 0 <= k < |unit.slides| && unit.slides[k].slug == slideId
  }

  /** The inner for-of loop: is some slide's slug `slideId`? */
  function ContainsSlug(slides: seq<SlideRef>, slideId: string): (r: bool)
    ensures r <==> exists k :: 0 <= k < |slides| && slides[k].slug == slideId
  {
    if |slides| == 0 then false
    else if slides[0].slug == slideId then true
    else
      var rest := ContainsSlug(slides[1..], slideId);
      assert forall k :: 1 <= k < |slides| ==> slides[k] == slides[1..][k - 1];
      rest
  }

  /** The outer for-of loop over the units. */
  function FirstUnitWith(units: seq<UnitInfo>, slideId: string): (r: Option<string>)
    ensures r.None? <==> forall i :: 0 <= i < |units| ==> !HasSlide(units[i], slideId)
    ensures r.Some? ==> exists i :: (0 <= i < |units| && units[i].id == r.value && HasSlide(units[i], slideId)
      && forall j :: 0 <= j < i ==> !HasSlide(units[j], slideId))
  {
    if |units| == 0 then None
    else if ContainsSlug(units[0].slides, slideId) then Some(units[0].id)
    else
      var rest := FirstUnitWith(units[1..], slideId);
      assert forall i :: 1 <= i < |units| ==> units[i] == units[1..][i - 1];
      FoundInTail(units, slideId, rest);
      rest
  }

  /** A unit found after a first unit without the slide is found in the whole list. */
  lemma FoundInTail(units: seq<UnitInfo>, slideId: string, rest: Option<string>)
    requires |units| > 0 && !HasSlide(units[0], slideId)
    requires rest.Some? ==> exists i :: (0 <= i < |units[1..]| && units[1..][i].id == rest.value && HasSlide(units[1..][i], slideId)
      && forall j :: 0 <= j < i ==> !HasSlide(units[1..][j], slideId))
    ensures rest.Some? ==> exists i :: (0 <= i < |units| && units[i].id == rest.value && HasSlide(units[i], slideId)
      && forall j :: 0 <= j < i ==> !HasSlide(units[j], slideId))
  {
    if rest.Some? {
      var i :| (0 <= i < |units[1..]| && units[1..][i].id == rest.value && HasSlide(units[1..][i], slideId)
        && forall j :: 0 <= j < i ==> !HasSlide(units[1..][j], slideId));
      assert units[i + 1] == units[1..][i];
      assert forall j :: 1 <= j < i + 1 ==> units[j] == units[1..][j - 1];
    }
  }

  /** findActiveUnit: the id of the first unit holding the slide, or null when there is none or
      the course or its units are missing. */
  function FindActiveUnit(slideId: string, courseInfo: Option<CourseInfo>): (r: Option<string>)
    ensures courseInfo.None? || courseInfo.value.units.None? ==> r.None?
    ensures courseInfo.Some? && courseInfo.value.units.Some? ==>
      r == FirstUnitWith(courseInfo.value.units.value, slideId)
  {
    if courseInfo.None? || courseInfo.value.units.None? then None
    else FirstUnitWith(courseInfo.value.units.value, slideId)
  }

  /** The active unit is the one whose slide list holds the slide; units after it are not
      consulted. */
  lemma {:induction false} ActiveUnitIgnoresLaterUnits(units: seq<UnitInfo>, more: seq<UnitInfo>, slideId: string)
    requires FirstUnitWith(units, slideId).Some?
    ensures FirstUnitWith(units + more, slideId) == FirstUnitWith(units, slideId)
  {
    assert (units + more)[0] == units[0];
    if !ContainsSlug(units[0].slides, slideId) {
      assert (units + more)[1..] == units[1..] + more;
      ActiveUnitIgnoresLaterUnits(units[1..], more, slideId);
    }
  }

  /** JavaScript truthiness of the highlighted unit id. */
  predicate IsSet(unit: Option<string>) {
    unit.Some? && unit.value != ""
  }

  /** getDerivedStateFromProps: the new highlighted unit, or `None` for "no change". */
  function DerivedHighlightedUnit(highlightedUnit: Option<string>, slideId: string, courseInfo: Option<CourseInfo>): (r: Option<Option<string>>)
    ensures r.Some? <==> !IsSet(highlightedUnit) && courseInfo.Some?
    ensures r.Some? ==> r.value == FindActiveUnit(slideId, courseInfo)
  {
    if !IsSet(highlightedUnit) && courseInfo.Some? then Some(FindActiveUnit(slideId, courseInfo)) else None
  }

  /** Once a unit is highlighted, new props do not move the highlight. */
  lemma HighlightIsSticky(highlightedUnit: Option<string>, slideId: string, courseInfo: Option<CourseInfo>)
    requires IsSet(highlightedUnit)
    ensures DerivedHighlightedUnit(highlightedUnit, slideId, courseInfo).None?
  {
  }

  /** The component's state. */
  class CourseComponent {
    var onCourseNavigation: bool
    var openUnit: Option<UnitInfo>
    var highlightedUnit: Option<string>

    constructor(slideId: string, courseInfo: Option<CourseInfo>)
      ensures onCourseNavigation && openUnit.None?
      ensures highlightedUnit == FindActiveUnit(slideId, courseInfo)
    {
      onCourseNavigation := true;
      openUnit := None;
      highlightedUnit := FindActiveUnit(slideId, courseInfo);
    }

    /** React merges the object getDerivedStateFromProps returns into the state. */
    method ReceiveProps(slideId: string, courseInfo: Option<CourseInfo>)
      modifies this
      ensures highlightedUnit == (if !IsSet(old(highlightedUnit)) && courseInfo.Some?
        then FindActiveUnit(slideId, courseInfo) else old(highlightedUnit))
      ensures onCourseNavigation == old(onCourseNavigation) && openUnit == old(openUnit)
    {
      var derived := DerivedHighlightedUnit(highlightedUnit, slideId, courseInfo);
      if derived.Some? {
        highlightedUnit := derived.value;
      }
    }

    /** unitClickHandle: open the clicked unit (`units[id]`, undefined when missing). */
    method UnitClickHandle(id: string, units: map<string, UnitInfo>)
      modifies this
      ensures openUnit == (if id in units then Some(units[id]) else None)
      ensures !onCourseNavigation
      ensures highlightedUnit == old(highlightedUnit)
    {
      openUnit := if id in units then Some(units[id]) else None;
      onCourseNavigation := false;
    }

    /** returnInUnitsMenu: back to the course navigation. */
    method ReturnInUnitsMenu()
      modifies this
      ensures openUnit.None? && onCourseNavigation
      ensures highlightedUnit == old(highlightedUnit)
    {
      openUnit := None;
      onCourseNavigation := true;
    }
  }
}
