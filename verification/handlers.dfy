/** The course page handlers: grouping the curriculum items under their
    modules, the full course page and the five section fragments. The
    course lookup is a parameter standing for `GetCourseByID`; the HTML
    sanitiser is a parameter; the enquiry-form environment variable is an
    input string (empty when unset). */
module Handlers {
  import opened Wrappers
  import opened Strings
  import opened Courses

  /** One curriculum item of the `course_module` JSON. */
  datatype SubjectItem = SubjectItem(code: string, name: string, details: string, moduleName: string)

  /** A module heading and the subjects listed under it. */
  datatype ModuleGroup = ModuleGroup(moduleName: string, subjects: seq<SubjectItem>)

  /** The subject as listed: its details sanitised and no module. */
  function Clean(x: SubjectItem, sanitize: string -> string): (r: SubjectItem)
    ensures r.code == x.code && r.name == x.name && r.moduleName == ""
    ensures r.details == sanitize(x.details)
  {
    SubjectItem(x.code, x.name, sanitize(x.details), "")
  }

  function CleanAll(xs: seq<SubjectItem>, sanitize: string -> string): (r: seq<SubjectItem>)
    ensures |r| == |xs|
    ensures forall i :: 0 <= i < |xs| ==> r[i] == Clean(xs[i], sanitize)
  {
    seq(|xs|, i requires 0 <= i < |xs| => Clean(xs[i], sanitize))
  }

  /** The latest group with one more subject. */
  function AddToLast(gs: seq<ModuleGroup>, c: SubjectItem): (r: seq<ModuleGroup>)
    requires |gs| > 0
    ensures |r| == |gs| && r[..|gs| - 1] == gs[..|gs| - 1]
    ensures r[|gs| - 1].moduleName == gs[|gs| - 1].moduleName
    ensures r[|gs| - 1].subjects == gs[|gs| - 1].subjects + [c]
  {
    var last := gs[|gs| - 1];
    gs[..|gs| - 1] + [last.(subjects := last.subjects + [c])]
  }

  /** One iteration of the grouping loop: an item with a module opens a
      group; an item without one joins the latest group, or is dropped when
      there is none yet. */
  function Step(gs: seq<ModuleGroup>, x: SubjectItem, sanitize: string -> string): (r: seq<ModuleGroup>)
    ensures x.moduleName != "" ==> r == gs + [ModuleGroup(x.moduleName, [Clean(x, sanitize)])]
    ensures x.moduleName == "" && |gs| > 0 ==>
      |r| == |gs| && r[..|gs| - 1] == gs[..|gs| - 1] && r[|gs| - 1] == gs[|gs| - 1].(subjects := gs[|gs| - 1].subjects + [Clean(x, sanitize)])
    ensures x.moduleName == "" && |gs| == 0 ==> r == []
  {
    if x.moduleName != "" then gs + [ModuleGroup(x.moduleName, [Clean(x, sanitize)])]
    else if |gs| > 0 then AddToLast(gs, Clean(x, sanitize))
    else gs
  }

  lemma CleanAllSnoc(xs: seq<SubjectItem>, x: SubjectItem, sanitize: string -> string)
    ensures CleanAll(xs + [x], sanitize) == CleanAll(xs, sanitize) + [Clean(x, sanitize)]
  {
  }

  /** Grouping as the loop performs it, item by item. */
  function Group(items: seq<SubjectItem>, sanitize: string -> string): (r: seq<ModuleGroup>)
    ensures |r| <= |items|
    ensures |items| > 0 && items[|items| - 1].moduleName != "" ==>
      |r| > 0 && r[|r| - 1] == ModuleGroup(items[|items| - 1].moduleName, [Clean(items[|items| - 1], sanitize)])
    decreases |items|
  {
    if |items| == 0 then [] else Step(Group(items[..|items| - 1], sanitize), items[|items| - 1], sanitize)
  }

  /** The modules named by the items, in item order. */
  function ModulesOf(items: seq<SubjectItem>): (r: seq<string>)
    ensures forall i :: 0 <= i < |r| ==> r[i] != ""
    decreases |items|
  {
    if |items| == 0 then []
    else ModulesOf(items[..|items| - 1]) + (if items[|items| - 1].moduleName != "" then [items[|items| - 1].moduleName] else [])
  }

  function Modules(gs: seq<ModuleGroup>): (r: seq<string>)
    ensures |r| == |gs|
    ensures forall i :: 0 <= i < |gs| ==> r[i] == gs[i].moduleName
  {
    seq(|gs|, i requires 0 <= i < |gs| => gs[i].moduleName)
  }

  /** All subjects of all groups, group after group. */
  function Flatten(gs: seq<ModuleGroup>): seq<SubjectItem>
    decreases |gs|
  {
    if |gs| == 0 then [] else Flatten(gs[..|gs| - 1]) + gs[|gs| - 1].subjects
  }

  predicate AllNonEmpty(gs: seq<ModuleGroup>)
  {
    forall i :: 0 <= i < |gs| ==> |gs[i].subjects| > 0
  }

  lemma FlattenSnoc(gs: seq<ModuleGroup>, g: ModuleGroup)
    ensures Flatten(gs + [g]) == Flatten(gs) + g.subjects
  {
    assert (gs + [g])[..|gs|] == gs;
  }

  /** Extending the last group by one subject extends the flattening by it. */
  lemma FlattenExtendLast(init: seq<ModuleGroup>, last: ModuleGroup, s: SubjectItem)
    ensures Flatten(init + [last.(subjects := last.subjects + [s])]) == Flatten(init + [last]) + [s]
  {
    FlattenSnoc(init, last.(subjects := last.subjects + [s]));
    FlattenSnoc(init, last);
    var a, b := Flatten(init), last.subjects;
    assert a + (b + [s]) == (a + b) + [s];
  }

  /** A step names a new group exactly for a module-bearing item. */
  lemma StepModules(gs: seq<ModuleGroup>, x: SubjectItem, sanitize: string -> string)
    ensures Modules(Step(gs, x, sanitize)) == Modules(gs) + (if x.moduleName != "" then [x.moduleName] else [])
  {
    var r := Step(gs, x, sanitize);
    if x.moduleName == "" && |gs| > 0 {
      assert forall i :: 0 <= i < |gs| - 1 ==> r[i] == r[..|gs| - 1][i] == gs[..|gs| - 1][i] == gs[i];
      assert Modules(r) == Modules(gs);
    }
  }

  /** A step keeps every group non-empty. */
  lemma StepNonEmpty(gs: seq<ModuleGroup>, x: SubjectItem, sanitize: string -> string)
    requires AllNonEmpty(gs)
    ensures AllNonEmpty(Step(gs, x, sanitize))
  {
    var r := Step(gs, x, sanitize);
    if x.moduleName == "" && |gs| > 0 {
      assert forall i :: 0 <= i < |gs| - 1 ==> r[i] == r[..|gs| - 1][i] == gs[..|gs| - 1][i] == gs[i];
    }
  }

  /** A step that keeps its item adds it, cleaned, at the end of the
      flattening. */
  lemma StepFlatten(gs: seq<ModuleGroup>, x: SubjectItem, sanitize: string -> string)
    requires x.moduleName != "" || |gs| > 0
    ensures Flatten(Step(gs, x, sanitize)) == Flatten(gs) + [Clean(x, sanitize)]
    ensures |Step(gs, x, sanitize)| > 0
  {
    var c := Clean(x, sanitize);
    if x.moduleName != "" {
      FlattenSnoc(gs, ModuleGroup(x.moduleName, [c]));
    } else {
      var n := |gs|;
      assert gs == gs[..n - 1] + [gs[n - 1]];
      FlattenExtendLast(gs[..n - 1], gs[n - 1], c);
    }
  }

  /** There is one group per module-bearing item, named after it, in order. */
  lemma {:induction false} GroupModules(items: seq<SubjectItem>, sanitize: string -> string)
    ensures Modules(Group(items, sanitize)) == ModulesOf(items)
    ensures |Group(items, sanitize)| == |ModulesOf(items)|
    decreases |items|
  {
    if |items| > 0 {
      var init := items[..|items| - 1];
      GroupModules(init, sanitize);
      StepModules(Group(init, sanitize), items[|items| - 1], sanitize);
    }
  }

  /** Every group lists at least one subject, the one that opened it. */
  lemma {:induction false} GroupsNonEmpty(items: seq<SubjectItem>, sanitize: string -> string)
    ensures AllNonEmpty(Group(items, sanitize))
    decreases |items|
  {
    if |items| > 0 {
      var init := items[..|items| - 1];
      GroupsNonEmpty(init, sanitize);
      StepNonEmpty(Group(init, sanitize), items[|items| - 1], sanitize);
    }
  }

  /** Without a module-bearing item there is no group at all. */
  lemma {:induction false} NoModuleNoGroups(items: seq<SubjectItem>, sanitize: string -> string)
    requires forall i :: 0 <= i < |items| ==> items[i].moduleName == ""
    ensures Group(items, sanitize) == []
    decreases |items|
  {
    if |items| > 0 {
      NoModuleNoGroups(items[..|items| - 1], sanitize);
    }
  }

  /** The groups list exactly the items from the first module-bearing one
      onward, cleaned and in order: the items before it are dropped. */
  lemma {:induction false} GroupFlatten(items: seq<SubjectItem>, sanitize: string -> string, k: nat)
    requires k < |items| && items[k].moduleName != ""
    requires forall i :: 0 <= i < k ==> items[i].moduleName == ""
    ensures Flatten(Group(items, sanitize)) == CleanAll(items[k..], sanitize)
    ensures |Group(items, sanitize)| > 0
    decreases |items|
  {
    if |items| == k + 1 {
      GroupFlattenOpening(items, sanitize);
    } else {
      var init := items[..|items| - 1];
      var x := items[|items| - 1];
      assert items[k..] == init[k..] + [x];
      CleanAllSnoc(init[k..], x, sanitize);
      GroupFlatten(init, sanitize, k);
      StepFlatten(Group(init, sanitize), x, sanitize);
    }
  }

  /** The item that opens the first group is the first one listed. */
  lemma GroupFlattenOpening(items: seq<SubjectItem>, sanitize: string -> string)
    requires |items| > 0 && items[|items| - 1].moduleName != ""
    requires forall i :: 0 <= i < |items| - 1 ==> items[i].moduleName == ""
    ensures Flatten(Group(items, sanitize)) == CleanAll(items[|items| - 1..], sanitize)
    ensures |Group(items, sanitize)| > 0
  {
    var init := items[..|items| - 1];
    var x := items[|items| - 1];
    NoModuleNoGroups(init, sanitize);
    StepFlatten([], x, sanitize);
    assert items[|items| - 1..] == [x];
  }

  /** `groupByModule`: the loop over the items keeping a pointer to the
      latest group. */
  method GroupByModule(items: seq<SubjectItem>, sanitize: string -> string) returns (groups: seq<ModuleGroup>)
    ensures groups == Group(items, sanitize)
    ensures Modules(groups) == ModulesOf(items)
    ensures AllNonEmpty(groups)
  {
    groups := [];
    var started := false;
    for i := 0 to |items|
      invariant groups == Group(items[..i], sanitize)
      invariant started <==> |groups| > 0
    {
      var item := items[i];
      assert items[..i + 1][..i] == items[..i];
      assert Group(items[..i + 1], sanitize) == Step(groups, item, sanitize);
      if item.moduleName != "" {
        groups := groups + [ModuleGroup(item.moduleName, [Clean(item, sanitize)])];
        started := true;
      } else if started {
        groups := AddToLast(groups, Clean(item, sanitize));
      }
    }
    assert items[..|items|] == items;
    GroupModules(items, sanitize);
    GroupsNonEmpty(items, sanitize);
  }

  // ---------------------------------------------------------------------
  // Responses
  // ---------------------------------------------------------------------

  /** What a handler writes: a plain-text or HTML fragment with a status,
      nothing at all (the framework then answers 200 with an empty body), or
      the rendered course page. */
  datatype Response =
    | Text(status: int, body: string)
    | Silent
    | CoursePage(view: CourseView, groups: seq<ModuleGroup>, iframeUrl: string)

  const DefaultIframeUrl := "http://localhost:8081"

  /** `CourseHandler`: the id must parse and be non-zero; a lookup error
      writes nothing; a zero-id view is "not found"; otherwise the page gets
      the view, the curriculum grouped by module and the enquiry-form URL. */
  function CourseHandler(idParam: string, fetch: Int64 -> Result<CourseView, string>,
                         asArray: string -> Option<seq<SubjectItem>>, asString: string -> Option<string>,
                         sanitize: string -> string, enquireFormUrl: string): (r: Response)
    ensures Atoi(idParam).Failure? ==> r == Text(400, "Invalid course ID")
    ensures Atoi(idParam) == Success(0) ==> r == Text(400, "ID is required")
    ensures Atoi(idParam).Success? && Atoi(idParam).value != 0 && fetch(Atoi(idParam).value).Failure? ==> r == Silent
    ensures Atoi(idParam).Success? && Atoi(idParam).value != 0 && fetch(Atoi(idParam).value).Success? ==>
      var v := fetch(Atoi(idParam).value).value;
      && (v.course.id == 0 ==> r == Text(404, "Course not found"))
      && (v.course.id != 0 ==> r.CoursePage? && r.view == v)
    ensures r.CoursePage? ==>
      && r.groups == Group(DecodeArrayOrString(r.view.course.courseModule, asArray, asString), sanitize)
      && r.iframeUrl == (if enquireFormUrl == "" then DefaultIframeUrl else enquireFormUrl)
  {
    match Atoi(idParam)
    case Failure(_) => Text(400, "Invalid course ID")
    case Success(id) =>
      if id == 0 then Text(400, "ID is required")
      else match fetch(id)
        case Failure(_) => Silent
        case Success(v) =>
          if v.course.id == 0 then Text(404, "Course not found")
          else
            var items := DecodeArrayOrString(v.course.courseModule, asArray, asString);
            CoursePage(v, Group(items, sanitize), if enquireFormUrl == "" then DefaultIframeUrl else enquireFormUrl)
  }

  /** The page answers 400 exactly when the id does not parse or is zero. */
  lemma CourseHandlerBadRequest(idParam: string, fetch: Int64 -> Result<CourseView, string>,
                                asArray: string -> Option<seq<SubjectItem>>, asString: string -> Option<string>,
                                sanitize: string -> string, env: string)
    ensures var r := CourseHandler(idParam, fetch, asArray, asString, sanitize, env);
      (r.Text? && r.status == 400) <==> (Atoi(idParam).Failure? || Atoi(idParam) == Success(0))
  {
  }

  /** A rendered page always shows a course with a non-zero id that the
      lookup returned for the parsed id. */
  lemma CoursePageShowsFetchedCourse(idParam: string, fetch: Int64 -> Result<CourseView, string>,
                                     asArray: string -> Option<seq<SubjectItem>>, asString: string -> Option<string>,
                                     sanitize: string -> string, env: string)
    requires CourseHandler(idParam, fetch, asArray, asString, sanitize, env).CoursePage?
    ensures var r := CourseHandler(idParam, fetch, asArray, asString, sanitize, env);
      && Atoi(idParam).Success? && Atoi(idParam).value != 0
      && fetch(Atoi(idParam).value) == Success(r.view)
      && r.view.course.id != 0
  {
  }

  /** When the id is zero the page never consults the lookup. */
  lemma CourseHandlerZeroNotFetched(idParam: string, f1: Int64 -> Result<CourseView, string>, f2: Int64 -> Result<CourseView, string>,
                                    asArray: string -> Option<seq<SubjectItem>>, asString: string -> Option<string>,
                                    sanitize: string -> string, env: string)
    requires Atoi(idParam) == Success(0)
    ensures CourseHandler(idParam, f1, asArray, asString, sanitize, env) == CourseHandler(idParam, f2, asArray, asString, sanitize, env)
  {
  }

  /** The section fragment handlers. */
  datatype Section = Info | Career | Recognition | Eligibility | Curriculum

  /** The fragment a section handler writes for a view: the view's own
      long-text field chosen by the `section` query parameter (absent is
      ""), sanitised, or the partner name as it is. */
  function Partial(kind: Section, section: string, v: CourseView, sanitize: string -> string): (r: string)
    ensures kind == Info ==>
      r == (if section == "duration" then sanitize(v.prose.durationAndStudyLoad)
            else if section == "delivery" then sanitize(v.prose.deliveryLongText)
            else if section == "skills" then sanitize(v.prose.whatYoullLearn)
            else if section == "whofor" then sanitize(v.prose.whoIsItFor)
            else sanitize(v.prose.overview))
    ensures kind == Career ==>
      r == (if section == "study" then sanitize(v.prose.furtherStudy) else sanitize(v.prose.jobOutcomes))
    ensures kind == Recognition ==>
      r == (if section == "partnership" then v.course.partner.name else sanitize(v.prose.professionalRecognition))
    ensures kind == Eligibility ==>
      r == (if section == "prior" then sanitize(v.prose.recognitionOfPriorLearning) else sanitize(v.prose.entryRequirements))
    ensures kind == Curriculum ==>
      r == (if section == "assessment" then sanitize(v.prose.assessment) else sanitize(v.prose.materials))
  {
    match kind
    case Info =>
      if section == "duration" then sanitize(v.prose.durationAndStudyLoad)
      else if section == "delivery" then sanitize(v.prose.deliveryLongText)
      else if section == "skills" then sanitize(v.prose.whatYoullLearn)
      else if section == "whofor" then sanitize(v.prose.whoIsItFor)
      else sanitize(v.prose.overview)
    case Career =>
      if section == "study" then sanitize(v.prose.furtherStudy) else sanitize(v.prose.jobOutcomes)
    case Recognition =>
      if section == "partnership" then v.course.partner.name else sanitize(v.prose.professionalRecognition)
    case Eligibility =>
      if section == "prior" then sanitize(v.prose.recognitionOfPriorLearning) else sanitize(v.prose.entryRequirements)
    case Curriculum =>
      if section == "assessment" then sanitize(v.prose.assessment) else sanitize(v.prose.materials)
  }

  /** The section names each handler recognises. */
  predicate KnownSection(kind: Section, section: string)
  {
    match kind
    case Info => section in {"duration", "delivery", "skills", "whofor"}
    case Career => section == "study"
    case Recognition => section == "partnership"
    case Eligibility => section == "prior"
    case Curriculum => section == "assessment"
  }

  /** An unknown or absent section gives the handler's default fragment. */
  lemma UnknownSectionIsDefault(kind: Section, section: string, v: CourseView, sanitize: string -> string)
    requires !KnownSection(kind, section)
    ensures Partial(kind, section, v, sanitize) == Partial(kind, "", v, sanitize)
  {
  }

  /** The fragments read the view's re-declared fields, which the
      single-course lookup has already sanitised: every fragment of a lookup
      view is the fragment of the raw course sanitised twice, except the
      partner name, which is never sanitised. */
  lemma SectionSanitisesTwice(kind: Section, section: string, c: Course, entries: seq<TestimonialEntry>, sanitize: string -> string)
    ensures Partial(kind, section, DetailView(c, entries, sanitize), sanitize)
         == Partial(kind, section, DetailView(c, entries, x => x), x => sanitize(sanitize(x)))
    ensures kind == Recognition && section == "partnership" ==>
      Partial(kind, section, DetailView(c, entries, sanitize), sanitize) == c.partner.name
  {
  }

  /** The five section handlers: the id must parse (zero is passed on to
      the lookup), a lookup error writes nothing, a zero-id view is "not
      found", otherwise 200 with the fragment. */
  function SectionHandler(kind: Section, idParam: string, section: string, fetch: Int64 -> Result<CourseView, string>,
                          sanitize: string -> string): (r: Response)
    ensures Atoi(idParam).Failure? ==> r == Text(400, "Invalid course ID")
    ensures Atoi(idParam).Success? && fetch(Atoi(idParam).value).Failure? ==> r == Silent
    ensures Atoi(idParam).Success? && fetch(Atoi(idParam).value).Success? ==>
      var v := fetch(Atoi(idParam).value).value;
      r == (if v.course.id == 0 then Text(404, "Course not found") else Text(200, Partial(kind, section, v, sanitize)))
    ensures !r.CoursePage?
  {
    match Atoi(idParam)
    case Failure(_) => Text(400, "Invalid course ID")
    case Success(id) =>
      match fetch(id)
      case Failure(_) => Silent
      case Success(v) =>
        if v.course.id == 0 then Text(404, "Course not found") else Text(200, Partial(kind, section, v, sanitize))
  }

  /** Unlike the page, a section handler does not reject the id 0: it asks
      the lookup for it, and a lookup that finds a course answers 200. */
  lemma SectionAcceptsZeroId(kind: Section, idParam: string, section: string, fetch: Int64 -> Result<CourseView, string>,
                             asArray: string -> Option<seq<SubjectItem>>, asString: string -> Option<string>,
                             sanitize: string -> string, env: string)
    requires Atoi(idParam) == Success(0)
    requires fetch(0).Success? && fetch(0).value.course.id != 0
    ensures SectionHandler(kind, idParam, section, fetch, sanitize) == Text(200, Partial(kind, section, fetch(0).value, sanitize))
    ensures CourseHandler(idParam, fetch, asArray, asString, sanitize, env) == Text(400, "ID is required")
  {
  }

  /** A lookup reply with no edge gives the zero view, so every handler
      answers "not found" for it. */
  lemma NoEdgeIsNotFound(kind: Section, idParam: string, section: string, reply: Reply,
                         decode: string -> Result<seq<Course>, string>,
                         asArray: string -> Option<seq<TestimonialEntry>>, asString: string -> Option<string>,
                         sanitize: string -> string)
    requires Atoi(idParam).Success?
    requires decode(reply.body) == Success([])
    ensures SectionHandler(kind, idParam, section, _ => GetCourseById(Success(reply), decode, asArray, asString, sanitize), sanitize)
         == Text(404, "Course not found")
  {
  }
}
