/** The student handlers: query-option parsing for the listing, the
    include-the-course rule, and the find, create, update and delete handlers
    over the Student table. Each handler runs atomically. */
module StudentController {
  import opened Basics
  import opened Strings
  import opened JsNumbers

  /** The associations a query can ask to load; only `Course` exists. */
  datatype Association = Course

  datatype Direction = Asc | Desc

  /** The query string of a request; every parameter may be absent. */
  datatype Query = Query(limit: Option<string>, page: Option<string>, sort: Option<string>, populate: Option<string>)

  /** `parseInt(q)`, where an absent parameter is `undefined`, whose string form
      `"undefined"` parses to `NaN`. */
  function ParseParam(q: Option<string>): (n: Option<int>)
    ensures q.None? ==> n.None?
    ensures q.Some? ==> n == ParseInt(q.value)
  {
    if q.None? then
      var undef := "undefined";
      assert undef[0] == 'u';
      ParseNaN(undef);
      ParseInt(undef)
    else ParseInt(q.value)
  }

  /** `n || fallback` on the number `n`: `NaN` and `0` are falsy. */
  function OrDefault(n: Option<int>, fallback: int): (r: int)
    ensures n.Some? && n.value != 0 ==> r == n.value
    ensures n.None? || n.value == 0 ==> r == fallback
  {
    if n.None? || n.value == 0 then fallback else n.value
  }

  const DefaultLimit := 10
  const DefaultPage := 1

  /** `parseInt(req.query.limit) || 10`. */
  function LimitOf(q: Option<string>): (limit: int)
    ensures limit != 0
    ensures ParseParam(q).Some? && ParseParam(q).value != 0 ==> limit == ParseParam(q).value
    ensures q.None? || ParseParam(q) == Some(0) || ParseParam(q).None? ==> limit == DefaultLimit
  {
    OrDefault(ParseParam(q), DefaultLimit)
  }

  /** `parseInt(req.query.page) || 1`. */
  function PageOf(q: Option<string>): (page: int)
    ensures page != 0
    ensures ParseParam(q).Some? && ParseParam(q).value != 0 ==> page == ParseParam(q).value
    ensures q.None? || ParseParam(q) == Some(0) || ParseParam(q).None? ==> page == DefaultPage
  {
    OrDefault(ParseParam(q), DefaultPage)
  }

  /** `req.query.sort?.toLowerCase() === 'desc' ? 'DESC' : 'ASC'`. */
  function SortOf(q: Option<string>): (d: Direction)
    ensures q.None? ==> d == Asc
    ensures d == Desc ==> q.Some? && |q.value| == 4
  {
    if q.Some? && Lower(q.value) == "desc" then Desc else Asc
  }

  /** `req.query.populate?.split(',') || []`: an absent parameter gives no pieces,
      an empty one the single piece `""`. */
  function PopulatePieces(q: Option<string>): (pieces: seq<string>)
    ensures q.Some? ==> pieces == Split(q.value, ',')
    ensures q.None? ==> pieces == []
  {
    if q.None? then [] else Split(q.value, ',')
  }

  /** The include list built at lines 93 and 129: `Course` when a piece is exactly
      `Course` or `course`. */
  function IncludeList(q: Option<string>): (associations: seq<Association>)
    ensures |associations| <= 1
    ensures Course in associations <==>
              exists i :: 0 <= i < |PopulatePieces(q)| && PopulatePieces(q)[i] in {"Course", "course"}
  {
    var pieces := PopulatePieces(q);
    if "Course" in pieces || "course" in pieces then [Course] else []
  }

  /** What calling a member of a JavaScript array gives: a value, or a thrown
      `TypeError`. */
  datatype JsCall<T> = Returned(value: T) | TypeError(message: string)

  /** `populate[member](x)` on an array of strings, for the two names the
      handlers call: `includes` is the array method; `include` is not a member of
      arrays, so calling it throws. */
  function CallArrayMember(member: string, pieces: seq<string>, x: string): (r: JsCall<bool>)
    requires member == "include" || member == "includes"
    ensures member == "includes" ==> r == Returned(x in pieces)
    ensures member == "include" ==> r == TypeError("populate.include is not a function")
  {
    if member == "includes" then Returned(x in pieces)
    else
      assert "populate." + member + " is not a function" == "populate.include is not a function";
      TypeError("populate." + member + " is not a function")
  }

  /** The include list built with `populate[member]('Course') || populate[member]('course')`. */
  function IncludeListVia(member: string, q: Option<string>): (r: JsCall<seq<Association>>)
    requires member == "include" || member == "includes"
    ensures member == "includes" ==> r == Returned(IncludeList(q))
    ensures member == "include" ==> r == TypeError("populate.include is not a function")
  {
    var pieces := PopulatePieces(q);
    match CallArrayMember(member, pieces, "Course")
    case TypeError(m) => TypeError(m)
    case Returned(true) => Returned([Course])
    case Returned(false) =>
      match CallArrayMember(member, pieces, "course")
      case TypeError(m) => TypeError(m)
      case Returned(found) => Returned(if found then [Course] else [])
  }

  /** The options `getAllStudents` passes to `findAll`. */
  datatype FindAllOptions = FindAllOptions(associations: seq<Association>, limit: int, offset: int, order: Direction)

  /** Where an awaited store call throws. */
  datatype Step = CreateRow | FindAll | FindRow | UpdateRow | DestroyRow

  /** How `getAllStudents` ends: the rows that `findAll` returns for `options`
      are sent; a thrown `findAll` gives a 500 with the error's message; or the
      handler itself throws before the `try`, and no response is sent. */
  datatype ListOutcome = Listed(options: FindAllOptions) | ListFailed(status: int, error: string) | Crashed(error: string)

  /** `getAllStudents` reading the query and looking pieces up with `member`. */
  function ListStudents(member: string, q: Query, fault: Fault<Step>): (r: ListOutcome)
    requires member == "include" || member == "includes"
    // the include list is built before the `try`, so a throwing lookup is not caught
    ensures r.Crashed? <==> member == "include"
    ensures r.Crashed? ==> r.error == "populate.include is not a function"
    ensures !r.Crashed? ==> (r.ListFailed? <==> ThrowsAt(fault, FindAll))
    ensures r.ListFailed? ==> r == ListFailed(500, fault.message)
    ensures r.Listed? ==>
              && r.options.associations == IncludeList(q.populate)
              && r.options.limit == LimitOf(q.limit)
              && r.options.offset == (PageOf(q.page) - 1) * LimitOf(q.limit)
              && r.options.order == SortOf(q.sort)
  {
    var limit := LimitOf(q.limit);
    var page := PageOf(q.page);
    var sort := SortOf(q.sort);
    match IncludeListVia(member, q.populate)
    case TypeError(m) => Crashed(m)
    case Returned(associations) =>
      if ThrowsAt(fault, FindAll) then ListFailed(500, fault.message)
      else Listed(FindAllOptions(associations, limit, (page - 1) * limit, sort))
  }

  /** `getAllStudents` as written: line 58 calls `populate.include`. */
  function GetAllStudentsAsWritten(q: Query, fault: Fault<Step>): (r: ListOutcome)
    ensures r.Crashed?
  {
    ListStudents("include", q, fault)
  }

  /** `getAllStudents` with line 58 calling `populate.includes`, as lines 93 and
      129 do. */
  function GetAllStudents(q: Query, fault: Fault<Step>): (r: ListOutcome)
    ensures !r.Crashed?
    ensures ThrowsAt(fault, FindAll) <==> r.ListFailed?
    ensures r.ListFailed? ==> r == ListFailed(500, fault.message)
    ensures r.Listed? ==>
              && r.options.associations == IncludeList(q.populate)
              && r.options.limit == LimitOf(q.limit)
              && r.options.offset == (PageOf(q.page) - 1) * LimitOf(q.limit)
              && r.options.order == SortOf(q.sort)
  {
    ListStudents("includes", q, fault)
  }

  /** As written, every request to list students throws at line 58, outside the
      `try`: `findAll` is never reached and neither is the 500 branch. */
  lemma AsWrittenAlwaysThrows(q: Query, fault: Fault<Step>)
    ensures GetAllStudentsAsWritten(q, fault) == Crashed("populate.include is not a function")
  {
  }

  /** A parameter holding the numeral of `n` parses to `n`. */
  lemma NumeralParam(n: int)
    ensures ParseParam(Some(Show(n))) == Some(n)
  {
    ParseShow(n, "");
    assert Show(n) + "" == Show(n);
  }

  /** A numeric `limit` is used as given, negative ones included; `NaN` and `0`
      fall back to 10. */
  lemma LimitParsing(n: int, text: string)
    requires n != 0
    requires var u := StripSign(TrimStart(text)); u == [] || !IsDigit(u[0], 10)
    ensures LimitOf(Some(Show(n))) == n
    ensures LimitOf(Some(Show(0))) == DefaultLimit
    ensures LimitOf(Some(text)) == DefaultLimit
    ensures LimitOf(None) == DefaultLimit
  {
    NumeralParam(n);
    NumeralParam(0);
    ParseNaN(text);
  }

  /** The same for `page`, whose fallback is 1; the offset is `(page - 1) * limit`. */
  lemma PageAndOffset(p: int, l: int)
    requires p != 0 && l != 0
    ensures PageOf(Some(Show(p))) == p
    ensures PageOf(Some(Show(0))) == DefaultPage && PageOf(None) == DefaultPage
    ensures GetAllStudents(Query(Some(Show(l)), Some(Show(p)), None, None), NoFault)
            == Listed(FindAllOptions([], l, (p - 1) * l, Asc))
  {
    NumeralParam(p);
    NumeralParam(l);
    NumeralParam(0);
  }

  /** The direction is descending exactly when the parameter is `desc` in any mix
      of upper and lower case. */
  lemma SortDescending(s: string)
    ensures SortOf(Some(s)) == Desc <==>
              |s| == 4 && s[0] in "dD" && s[1] in "eE" && s[2] in "sS" && s[3] in "cC"
    ensures SortOf(None) == Asc
  {
    var desc := "desc";
    if |s| == 4 {
      forall c | c in "dDeEsScC" ensures LowerChar(c) in desc {}
      if Lower(s) == desc {
        assert forall i :: 0 <= i < 4 ==> LowerChar(s[i]) == desc[i];
      }
    }
  }

  /** The include list of a `populate` written as comma-free pieces joined by
      commas depends only on whether `Course` or `course` is one of the pieces;
      pieces are not trimmed, so `" Course"` does not count. */
  lemma IncludeFromPieces(pieces: seq<string>)
    requires |pieces| >= 1 && NoSeparator(pieces, ',')
    ensures IncludeList(Some(Join(pieces, ','))) == if "Course" in pieces || "course" in pieces then [Course] else []
  {
    SplitJoin(pieces, ',');
  }

  lemma IncludeLowerCase()
    ensures IncludeList(Some("Grade,course")) == [Course]
  {
    var grade, course := "Grade", "course";
    assert ',' !in grade && ',' !in course;
    JoinCons(grade, [course], ',');
    assert grade + [','] + course == "Grade,course";
    IncludeFromPieces([grade, course]);
  }

  lemma IncludeUntrimmed()
    ensures IncludeList(Some("Grade, Course")) == []
  {
    var grade, course := "Grade", " Course";
    assert ',' !in grade && ',' !in course;
    assert grade[0] == 'G' && course[0] == ' ';
    assert "Course"[0] == 'C' && "course"[0] == 'c';
    assert "Course" != grade && "Course" != course && "course" != grade && "course" != course;
    assert "Course" !in [grade, course] && "course" !in [grade, course];
    JoinCons(grade, [course], ',');
    assert grade + [','] + course == "Grade, Course";
    IncludeFromPieces([grade, course]);
  }

  lemma IncludeEmpty()
    ensures IncludeList(Some("")) == [] && IncludeList(None) == []
  {
    IncludeFromPieces([""]);
  }

  /** A stored student row: its primary key and its attributes. */
  datatype Student = Student(id: int, attributes: map<string, string>)

  datatype Body = StudentBody(student: Student, associations: seq<Association>) | MessageBody(message: string) | ErrorBody(error: string)

  /** `res.status(status).json(body)`. */
  datatype Reply = Reply(status: int, body: Body)

  const NotFound := Reply(404, MessageBody("Not found"))
  const Deleted := Reply(200, MessageBody("Deleted"))

  /** Every row is filed under its own id, and ids below `nextId`. */
  ghost predicate StoreInvariant(rows: map<int, Student>, nextId: int)
  {
    forall k :: k in rows ==> rows[k].id == k && k < nextId
  }

  /** A reply and the table after it. */
  datatype Change = Change(reply: Reply, rows: map<int, Student>, nextId: int)

  /** `createStudent`: insert the request body as a new row. */
  function CreateOutcome(rows: map<int, Student>, nextId: int, body: map<string, string>, fault: Fault<Step>): (r: Change)
    requires StoreInvariant(rows, nextId)
    ensures StoreInvariant(r.rows, r.nextId)
    ensures r.reply.status in {201, 500}
    ensures r.reply.status == 500 <==> ThrowsAt(fault, CreateRow)
    ensures r.reply.status == 500 ==> r == Change(Reply(500, ErrorBody(fault.message)), rows, nextId)
    ensures r.reply.status == 201 ==>
              && r.rows.Keys == rows.Keys + {nextId} && nextId !in rows
              && |r.rows| == |rows| + 1
              && r.rows[nextId] == Student(nextId, body)
              && r.reply.body == StudentBody(r.rows[nextId], [])
    ensures forall k :: k in rows ==> k in r.rows && r.rows[k] == rows[k]
  {
    if ThrowsAt(fault, CreateRow) then Change(Reply(500, ErrorBody(fault.message)), rows, nextId)
    else
      var student := Student(nextId, body);
      Change(Reply(201, StudentBody(student, [])), rows[nextId := student], nextId + 1)
  }

  /** `getStudentById`: the row with the given id and the associations asked for. */
  function GetStudentById(rows: map<int, Student>, id: int, populate: Option<string>, fault: Fault<Step>): (r: Reply)
    ensures r.status in {200, 404, 500}
    ensures ThrowsAt(fault, FindRow) ==> r == Reply(500, ErrorBody(fault.message))
    ensures !ThrowsAt(fault, FindRow) ==> (r == NotFound <==> id !in rows)
    // a stored id is always found when the lookup does not throw
    ensures !ThrowsAt(fault, FindRow) && id in rows ==> r.status == 200
    ensures r.status == 200 ==> id in rows && r.body == StudentBody(rows[id], IncludeList(populate))
  {
    if ThrowsAt(fault, FindRow) then Reply(500, ErrorBody(fault.message))
    else if id !in rows then NotFound
    else Reply(200, StudentBody(rows[id], IncludeList(populate)))
  }

  /** `updateStudent`: the found row with the request body's attributes written
      over its own. */
  function UpdateOutcome(rows: map<int, Student>, nextId: int, id: int, populate: Option<string>,
                         body: map<string, string>, fault: Fault<Step>): (r: Change)
    requires StoreInvariant(rows, nextId)
    ensures StoreInvariant(r.rows, r.nextId) && r.nextId == nextId
    ensures r.rows.Keys == rows.Keys
    ensures forall k :: k in rows && k != id ==> r.rows[k] == rows[k]
    ensures r.reply.status != 200 ==> r.rows == rows
    ensures r.reply.status in {200, 404, 500}
    ensures ThrowsAt(fault, FindRow) ==> r.reply == Reply(500, ErrorBody(fault.message))
    ensures !ThrowsAt(fault, FindRow) ==> (r.reply == NotFound <==> id !in rows)
    ensures !ThrowsAt(fault, FindRow) && id in rows && ThrowsAt(fault, UpdateRow) ==>
              r.reply == Reply(500, ErrorBody(fault.message))
    // a stored id is always updated when neither call throws
    ensures !ThrowsAt(fault, FindRow) && !ThrowsAt(fault, UpdateRow) && id in rows ==> r.reply.status == 200
    ensures r.reply.status == 200 ==>
              && id in rows
              && r.rows[id] == Student(id, rows[id].attributes + body)
              && r.reply.body == StudentBody(r.rows[id], IncludeList(populate))
  {
    if ThrowsAt(fault, FindRow) then Change(Reply(500, ErrorBody(fault.message)), rows, nextId)
    else if id !in rows then Change(NotFound, rows, nextId)
    else if ThrowsAt(fault, UpdateRow) then Change(Reply(500, ErrorBody(fault.message)), rows, nextId)
    else
      var updated := Student(id, rows[id].attributes + body);
      Change(Reply(200, StudentBody(updated, IncludeList(populate))), rows[id := updated], nextId)
  }

  /** `deleteStudent`: remove the found row. */
  function DeleteOutcome(rows: map<int, Student>, nextId: int, id: int, fault: Fault<Step>): (r: Change)
    requires StoreInvariant(rows, nextId)
    ensures StoreInvariant(r.rows, r.nextId) && r.nextId == nextId
    ensures r.reply.status != 200 ==> r.rows == rows
    ensures r.reply.status in {200, 404, 500}
    ensures ThrowsAt(fault, FindRow) ==> r.reply == Reply(500, ErrorBody(fault.message))
    ensures !ThrowsAt(fault, FindRow) ==> (r.reply == NotFound <==> id !in rows)
    ensures !ThrowsAt(fault, FindRow) && id in rows && ThrowsAt(fault, DestroyRow) ==>
              r.reply == Reply(500, ErrorBody(fault.message))
    // a stored id is always removed when neither call throws
    ensures !ThrowsAt(fault, FindRow) && !ThrowsAt(fault, DestroyRow) && id in rows ==> r.reply == Deleted
    ensures r.reply.status == 200 ==>
              && r.reply == Deleted && id in rows
              && r.rows.Keys == rows.Keys - {id} && |r.rows| == |rows| - 1
              && forall k :: k in r.rows ==> r.rows[k] == rows[k]
  {
    if ThrowsAt(fault, FindRow) then Change(Reply(500, ErrorBody(fault.message)), rows, nextId)
    else if id !in rows then Change(NotFound, rows, nextId)
    else if ThrowsAt(fault, DestroyRow) then Change(Reply(500, ErrorBody(fault.message)), rows, nextId)
    else
      var rest := rows - {id};
      assert rest.Keys == rows.Keys - {id};
      Change(Deleted, rest, nextId)
  }

  /** A missing id is the same 404 for find, update and delete, and changes nothing. */
  lemma MissingIdIsNotFound(rows: map<int, Student>, nextId: int, id: int, populate: Option<string>,
                            body: map<string, string>, fault: Fault<Step>)
    requires StoreInvariant(rows, nextId)
    requires id !in rows && !ThrowsAt(fault, FindRow)
    ensures GetStudentById(rows, id, populate, fault) == NotFound
    ensures UpdateOutcome(rows, nextId, id, populate, body, fault) == Change(NotFound, rows, nextId)
    ensures DeleteOutcome(rows, nextId, id, fault) == Change(NotFound, rows, nextId)
  {
  }

  /** A created row can be found again, and deleting it restores the table. */
  lemma CreateFindDelete(rows: map<int, Student>, nextId: int, body: map<string, string>, populate: Option<string>)
    requires StoreInvariant(rows, nextId)
    ensures var c := CreateOutcome(rows, nextId, body, NoFault);
            && GetStudentById(c.rows, nextId, populate, NoFault) == Reply(200, StudentBody(Student(nextId, body), IncludeList(populate)))
            && DeleteOutcome(c.rows, c.nextId, nextId, NoFault).rows == rows
  {
    var c := CreateOutcome(rows, nextId, body, NoFault);
    var d := DeleteOutcome(c.rows, c.nextId, nextId, NoFault);
    assert nextId !in rows;
    assert d.rows == rows;
  }

  /** The Student table: rows keyed by id and the id it will assign next. */
  class StudentStore {
    var rows: map<int, Student>
    var nextId: int

    ghost predicate Valid()
      reads this
    {
      StoreInvariant(rows, nextId)
    }

    constructor ()
      ensures Valid() && rows == map[] && nextId == 1
    {
      rows := map[];
      nextId := 1;
    }

    method Create(body: map<string, string>, fault: Fault<Step>) returns (reply: Reply)
      requires Valid()
      modifies this
      ensures Valid()
      ensures Change(reply, rows, nextId) == CreateOutcome(old(rows), old(nextId), body, fault)
    {
      if ThrowsAt(fault, CreateRow) {
        return Reply(500, ErrorBody(fault.message));
      }
      var student := Student(nextId, body);
      rows := rows[nextId := student];
      nextId := nextId + 1;
      reply := Reply(201, StudentBody(student, []));
    }

    method Update(id: int, populate: Option<string>, body: map<string, string>, fault: Fault<Step>) returns (reply: Reply)
      requires Valid()
      modifies this
      ensures Valid()
      ensures Change(reply, rows, nextId) == UpdateOutcome(old(rows), old(nextId), id, populate, body, fault)
    {
      var associations := IncludeList(populate);
      if ThrowsAt(fault, FindRow) {
        return Reply(500, ErrorBody(fault.message));
      }
      if id !in rows {
        return NotFound;
      }
      var student := rows[id];
      if ThrowsAt(fault, UpdateRow) {
        return Reply(500, ErrorBody(fault.message));
      }
      student := Student(id, student.attributes + body);
      rows := rows[id := student];
      reply := Reply(200, StudentBody(student, associations));
    }

    method Delete(id: int, fault: Fault<Step>) returns (reply: Reply)
      requires Valid()
      modifies this
      ensures Valid()
      ensures Change(reply, rows, nextId) == DeleteOutcome(old(rows), old(nextId), id, fault)
    {
      if ThrowsAt(fault, FindRow) {
        return Reply(500, ErrorBody(fault.message));
      }
      if id !in rows {
        return NotFound;
      }
      if ThrowsAt(fault, DestroyRow) {
        return Reply(500, ErrorBody(fault.message));
      }
      rows := rows - {id};
      reply := Deleted;
    }
  }
}
