/** The server's course records and the shaping of a decoded GraphQL
    response into views: the code-to-label table, the course list (one view
    per edge) and the single-course view. The HTTP exchange is an input: a
    transport result carrying the status and the body, and a decoder from
    the body to the edges' nodes. The HTML sanitiser is a function
    parameter. */
module Courses {
  import opened Wrappers
  import opened Strings

  datatype Partner = Partner(id: Int64, name: string, logo: string)

  datatype Brand = Brand(id: Int64, providerName: string, aboutProvider: string, logo: string, rtoCode: string)

  /** The sixteen long-text fields a course carries and a view re-declares. */
  datatype Prose = Prose(
    deliveryLongText: string,
    overview: string,
    whoIsItFor: string,
    whatYoullLearn: string,
    durationAndStudyLoad: string,
    jobOutcomes: string,
    entryRequirements: string,
    courseFeatures: string,
    workPlacement: string,
    recognitionOfPriorLearning: string,
    assessment: string,
    furtherStudy: string,
    professionalRecognition: string,
    materials: string,
    paymentOptions: string,
    additionalInformation: string)

  /** A course node as decoded. The three raw JSON fields are kept as their
      text. */
  datatype Course = Course(
    id: Int64,
    guid: string,
    courseName: string,
    level: seq<string>,
    delivery: seq<string>,
    locations: seq<string>,
    courseCode: string,
    prose: Prose,
    geoTargeting: string,
    courseModule: string,
    topPanel: string,
    testimonials: string,
    startDate: string,
    frequency: seq<string>,
    durationLength: string,
    durationUnit: string,
    partnerId: Int64,
    partner: Partner,
    brandId: Int64,
    brand: Brand)

  /** A view: the embedded course, the derived texts, and the re-declared
      long-text and geo-targeting fields, which shadow the course's own. */
  datatype CourseView = CourseView(
    course: Course,
    idText: string,
    deliveryText: string,
    frequencyText: string,
    testimonialText: string,
    prose: Prose,
    geoTargeting: string)

  const EmptyProse := Prose("", "", "", "", "", "", "", "", "", "", "", "", "", "", "", "")

  const ZeroCourse := Course(0, "", "", [], [], [], "", EmptyProse, "", "", "", "", "", [], "", "", 0, Partner(0, "", ""), 0, Brand(0, "", "", "", ""))

  /** `CourseView{}`. */
  const ZeroView := CourseView(ZeroCourse, "", "", "", "", EmptyProse, "")

  /** Every long-text field passed through `f`. */
  function MapProse(p: Prose, f: string -> string): (r: Prose)
    ensures r.overview == f(p.overview) && r.jobOutcomes == f(p.jobOutcomes)
    ensures r.durationAndStudyLoad == f(p.durationAndStudyLoad) && r.deliveryLongText == f(p.deliveryLongText)
    ensures r.whatYoullLearn == f(p.whatYoullLearn) && r.whoIsItFor == f(p.whoIsItFor)
    ensures r.furtherStudy == f(p.furtherStudy) && r.professionalRecognition == f(p.professionalRecognition)
    ensures r.recognitionOfPriorLearning == f(p.recognitionOfPriorLearning) && r.entryRequirements == f(p.entryRequirements)
    ensures r.assessment == f(p.assessment) && r.materials == f(p.materials)
    ensures r.courseFeatures == f(p.courseFeatures) && r.workPlacement == f(p.workPlacement)
    ensures r.paymentOptions == f(p.paymentOptions) && r.additionalInformation == f(p.additionalInformation)
  {
    Prose(f(p.deliveryLongText), f(p.overview), f(p.whoIsItFor), f(p.whatYoullLearn), f(p.durationAndStudyLoad),
          f(p.jobOutcomes), f(p.entryRequirements), f(p.courseFeatures), f(p.workPlacement),
          f(p.recognitionOfPriorLearning), f(p.assessment), f(p.furtherStudy), f(p.professionalRecognition),
          f(p.materials), f(p.paymentOptions), f(p.additionalInformation))
  }

  // ---------------------------------------------------------------------
  // Code-to-label table
  // ---------------------------------------------------------------------

  const DataMap: map<string, map<string, string>> := map[
    "delivery" := map["in_class" := "In Class", "blended" := "Blended", "online" := "Online", "virtual" := "Virtual"],
    "frequency" := map["SELF_PACED" := "Self Paced", "FULL_TIME" := "Full Time", "PART_TIME" := "Part Time"],
    "geo" := map["NONE" := "none", "WARNING" := "warning", "RESTRICTION" := "restriction"]
  ]

  /** `formatValue`: the label of an exact, case-sensitive code of a known
      category; anything else is returned as it is. */
  function FormatValue(category: string, value: string): (r: string)
    ensures category in DataMap && value in DataMap[category] ==> r == DataMap[category][value]
    ensures !(category in DataMap && value in DataMap[category]) ==> r == value
  {
    if category in DataMap && value in DataMap[category] then DataMap[category][value] else value
  }

  /** No label of a category is also one of its codes. */
  lemma LabelsAreNotCodes(category: string, value: string)
    requires category in DataMap && value in DataMap[category]
    ensures DataMap[category][value] !in DataMap[category]
  {
    var m := DataMap[category];
    if category == "delivery" {
      assert m == map["in_class" := "In Class", "blended" := "Blended", "online" := "Online", "virtual" := "Virtual"];
      assert m[value] in {"In Class", "Blended", "Online", "Virtual"};
      assert m.Keys == {"in_class", "blended", "online", "virtual"};
    } else if category == "frequency" {
      assert m == map["SELF_PACED" := "Self Paced", "FULL_TIME" := "Full Time", "PART_TIME" := "Part Time"];
      assert m[value] in {"Self Paced", "Full Time", "Part Time"};
      assert m.Keys == {"SELF_PACED", "FULL_TIME", "PART_TIME"};
    } else {
      assert category == "geo";
      assert m == map["NONE" := "none", "WARNING" := "warning", "RESTRICTION" := "restriction"];
      assert m[value] in {"none", "warning", "restriction"};
      assert m.Keys == {"NONE", "WARNING", "RESTRICTION"};
    }
  }

  /** Formatting a formatted value changes nothing. */
  lemma FormatValueIdempotent(category: string, value: string)
    ensures FormatValue(category, FormatValue(category, value)) == FormatValue(category, value)
  {
    if category in DataMap && value in DataMap[category] {
      LabelsAreNotCodes(category, value);
    }
  }

  /** Every value of a list formatted in its category, in order. */
  function FormatAll(category: string, values: seq<string>): (r: seq<string>)
    ensures |r| == |values|
    ensures forall i :: 0 <= i < |values| ==> r[i] == FormatValue(category, values[i])
  {
    seq(|values|, i requires 0 <= i < |values| => FormatValue(category, values[i]))
  }

  /** The Go loop that appends each formatted value and joins the result with
      ", ". */
  method JoinFormatted(category: string, values: seq<string>) returns (text: string)
    ensures text == Join(FormatAll(category, values), ", ")
    ensures |values| == 0 ==> text == ""
    ensures |values| == 1 ==> text == FormatValue(category, values[0])
  {
    var vals: seq<string> := [];
    for i := 0 to |values|
      invariant vals == FormatAll(category, values[..i])
    {
      vals := vals + [FormatValue(category, values[i])];
    }
    assert values[..|values|] == values;
    text := Join(vals, ", ");
  }

  // ---------------------------------------------------------------------
  // The HTTP exchange, as input
  // ---------------------------------------------------------------------

  /** A completed request: its status and its body. */
  datatype Reply = Reply(status: int, body: string)

  /** The list view of one node: decimal id text, joined and formatted
      delivery and frequency codes, and only the overview and job outcomes
      re-declared (sanitised); the other re-declared fields are empty. */
  function ListView(c: Course, sanitize: string -> string): (v: CourseView)
    ensures v.course == c
    ensures v.idText == IntText(c.id)
    ensures v.deliveryText == Join(FormatAll("delivery", c.delivery), ", ")
    ensures v.frequencyText == Join(FormatAll("frequency", c.frequency), ", ")
    ensures v.testimonialText == "" && v.geoTargeting == ""
    ensures v.prose == EmptyProse.(overview := sanitize(c.prose.overview), jobOutcomes := sanitize(c.prose.jobOutcomes))
  {
    CourseView(c, IntText(c.id),
               Join(FormatAll("delivery", c.delivery), ", "),
               Join(FormatAll("frequency", c.frequency), ", "),
               "",
               EmptyProse.(overview := sanitize(c.prose.overview), jobOutcomes := sanitize(c.prose.jobOutcomes)),
               "")
  }

  /** `GetCourses` after the request has been sent: a transport error is
      passed on, a status other than 200 is an error before anything is
      decoded, a decoding error is wrapped, and otherwise there is one view
      per edge in edge order. The tag filter is accepted and never used. */
  function GetCourses(tagFilter: string, reply: Result<Reply, string>, decode: string -> Result<seq<Course>, string>,
                      sanitize: string -> string): (r: Result<seq<CourseView>, string>)
    ensures reply.Failure? ==> r == Failure(reply.error)
    ensures reply.Success? && reply.value.status != 200 ==> r == Failure("unexpected status: " + IntText(reply.value.status))
    ensures reply.Success? && reply.value.status == 200 && decode(reply.value.body).Failure? ==>
      r == Failure("error decoding JSON: " + decode(reply.value.body).error)
    ensures r.Success? <==> reply.Success? && reply.value.status == 200 && decode(reply.value.body).Success?
    ensures r.Success? ==>
      var nodes := decode(reply.value.body).value;
      && |r.value| == |nodes|
      && forall i :: 0 <= i < |nodes| ==> r.value[i] == ListView(nodes[i], sanitize)
  {
    var rep :- reply;
    if rep.status != 200 then Failure("unexpected status: " + IntText(rep.status))
    else match decode(rep.body)
      case Failure(e) => Failure("error decoding JSON: " + e)
      case Success(nodes) => Success(seq(|nodes|, i requires 0 <= i < |nodes| => ListView(nodes[i], sanitize)))
  }

  /** The status is checked before the body is decoded: with any status
      other than 200 the decoder is irrelevant. */
  lemma StatusBeforeDecode(t: string, reply: Reply, d1: string -> Result<seq<Course>, string>,
                           d2: string -> Result<seq<Course>, string>, sanitize: string -> string)
    requires reply.status != 200
    ensures GetCourses(t, Success(reply), d1, sanitize) == GetCourses(t, Success(reply), d2, sanitize)
    ensures GetCourses(t, Success(reply), d1, sanitize).Failure?
  {
  }

  /** The tag filter never reaches the query. */
  lemma TagFilterUnused(t1: string, t2: string, reply: Result<Reply, string>,
                        decode: string -> Result<seq<Course>, string>, sanitize: string -> string)
    ensures GetCourses(t1, reply, decode, sanitize) == GetCourses(t2, reply, decode, sanitize)
  {
  }

  /** Every list view's id text parses back to the course's id. */
  lemma ListIdsRoundTrip(t: string, reply: Result<Reply, string>, decode: string -> Result<seq<Course>, string>,
                         sanitize: string -> string, i: nat)
    requires GetCourses(t, reply, decode, sanitize).Success?
    requires i < |GetCourses(t, reply, decode, sanitize).value|
    ensures var v := GetCourses(t, reply, decode, sanitize).value[i];
      Atoi(v.idText) == Success(v.course.id)
  {
    var v := GetCourses(t, reply, decode, sanitize).value[i];
    AtoiOfIntText(v.course.id);
  }

  // ---------------------------------------------------------------------
  // The single course
  // ---------------------------------------------------------------------

  /** A testimonial entry of the `testimonies` JSON. */
  datatype TestimonialEntry = TestimonialEntry(fullName: string, courseName: string, testimonial: string)

  /** The two-step decode of a raw JSON field that may hold an array or a
      string containing an array: an empty field gives nothing; an array is
      taken as it is; otherwise a non-empty string is decoded as an array,
      and any failure leaves nothing. `asArray` and `asString` are the JSON
      decoders, `None` standing for a decoding error. */
  function DecodeArrayOrString<T>(raw: string, asArray: string -> Option<seq<T>>, asString: string -> Option<string>): (r: seq<T>)
    ensures raw == "" ==> r == []
    ensures raw != "" && asArray(raw).Some? ==> r == asArray(raw).value
    ensures raw != "" && asArray(raw).None? && asString(raw).Some? && asString(raw).value != "" ==> r == asArray(asString(raw).value).GetOr([])
    ensures raw != "" && asArray(raw).None? && (asString(raw).None? || asString(raw).value == "") ==> r == []
  {
    if raw == "" then []
    else match asArray(raw)
      case Some(entries) => entries
      case None =>
        match asString(raw)
        case Some(s) => if s != "" then asArray(s).GetOr([]) else []
        case None => []
  }

  /** The single-course view of a node: raw (unformatted) delivery codes,
      no frequency text, the first testimonial, the formatted geo-targeting
      and every long-text field sanitised. */
  function DetailView(c: Course, entries: seq<TestimonialEntry>, sanitize: string -> string): (v: CourseView)
    ensures v.course == c && v.idText == IntText(c.id)
    ensures v.deliveryText == Join(c.delivery, ", ") && v.frequencyText == ""
    ensures |entries| > 0 ==> v.testimonialText == entries[0].testimonial
    ensures |entries| == 0 ==> v.testimonialText == ""
    ensures v.geoTargeting == FormatValue("geo", c.geoTargeting)
    ensures v.prose == MapProse(c.prose, sanitize)
  {
    CourseView(c, IntText(c.id), Join(c.delivery, ", "), "",
               if |entries| > 0 then entries[0].testimonial else "",
               MapProse(c.prose, sanitize),
               FormatValue("geo", c.geoTargeting))
  }

  /** `GetCourseByID` after the request has been sent. The status is not
      checked; no edge is not an error but the zero view; only the first
      edge is used. */
  function GetCourseById(reply: Result<Reply, string>, decode: string -> Result<seq<Course>, string>,
                         asArray: string -> Option<seq<TestimonialEntry>>, asString: string -> Option<string>,
                         sanitize: string -> string): (r: Result<CourseView, string>)
    ensures reply.Failure? ==> r == Failure(reply.error)
    ensures reply.Success? && decode(reply.value.body).Failure? ==> r == Failure(decode(reply.value.body).error)
    ensures reply.Success? && decode(reply.value.body) == Success([]) ==> r == Success(ZeroView)
    ensures reply.Success? && decode(reply.value.body).Success? && |decode(reply.value.body).value| > 0 ==>
      var c := decode(reply.value.body).value[0];
      r == Success(DetailView(c, DecodeArrayOrString(c.testimonials, asArray, asString), sanitize))
    ensures r.Success? <==> reply.Success? && decode(reply.value.body).Success?
  {
    var rep :- reply;
    var nodes :- decode(rep.body);
    if |nodes| == 0 then Success(ZeroView)
    else
      var c := nodes[0];
      Success(DetailView(c, DecodeArrayOrString(c.testimonials, asArray, asString), sanitize))
  }

  /** The status of the reply never matters to the single-course view. */
  lemma DetailIgnoresStatus(s1: int, s2: int, body: string, decode: string -> Result<seq<Course>, string>,
                            asArray: string -> Option<seq<TestimonialEntry>>, asString: string -> Option<string>,
                            sanitize: string -> string)
    ensures GetCourseById(Success(Reply(s1, body)), decode, asArray, asString, sanitize)
         == GetCourseById(Success(Reply(s2, body)), decode, asArray, asString, sanitize)
  {
  }

  /** Only the first edge matters: edges after it can be anything. */
  lemma DetailUsesFirstEdge(status: int, body: string, c: Course, rest1: seq<Course>, rest2: seq<Course>,
                            d1: string -> Result<seq<Course>, string>, d2: string -> Result<seq<Course>, string>,
                            asArray: string -> Option<seq<TestimonialEntry>>, asString: string -> Option<string>,
                            sanitize: string -> string)
    requires d1(body) == Success([c] + rest1) && d2(body) == Success([c] + rest2)
    ensures GetCourseById(Success(Reply(status, body)), d1, asArray, asString, sanitize)
         == GetCourseById(Success(Reply(status, body)), d2, asArray, asString, sanitize)
  {
    assert ([c] + rest1)[0] == c && ([c] + rest2)[0] == c;
  }

  /** The geo-targeting of a detail view is a label or an unknown code, and
      formatting it again changes nothing. */
  lemma DetailGeoStable(c: Course, entries: seq<TestimonialEntry>, sanitize: string -> string)
    ensures FormatValue("geo", DetailView(c, entries, sanitize).geoTargeting) == DetailView(c, entries, sanitize).geoTargeting
  {
    FormatValueIdempotent("geo", c.geoTargeting);
  }
}
