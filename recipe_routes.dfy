/** The request handling of the two recipe routes in server/routes/recipes.js:
    `POST /recipes/add` checks its required fields and builds the row to
    insert, and `GET /recipes/list` computes its page size from the `limit`
    query parameter. The hosted database is not modelled: each handler is a
    function from the request to what it asks of the `recipes` table (or to
    its early answer), and a second function turns the table's reply into
    the HTTP response. */
module RecipeRoutes {
  import opened JsValues
  import opened JsParseInt

  /** An HTTP answer: a status code and the JSON body sent with it. */
  datatype Response = Response(status: int, body: JsValue)

  /** What the database client hands back: the data, or an error with its message. */
  datatype DbReply = Data(value: JsValue) | DbError(message: string)

  /** A row as the object literal the route builds. */
  type Row = map<string, JsValue>

  /** What `POST /add` does with a request body: answer at once, or insert rows. */
  datatype AddPlan =
    | Reject(response: Response)
    | Insert(table: string, rows: seq<Row>)

  /** The one select `GET /list` sends: columns, ordering and row cap. */
  datatype ListQuery = ListQuery(table: string, columns: string, orderBy: string, ascending: bool, limit: int)

  /** A query-string parameter as Express's default ("extended") parser gives
      it: missing, a string, an array (`?limit=1&limit=2`) or an object (`?limit[a]=1`). */
  datatype QueryValue =
    | Absent
    | Text(s: string)
    | List(items: seq<QueryValue>)
    | Dict(entries: map<string, QueryValue>)

  const RequiredFields: set<string> := {"user_id", "title", "ingredients", "steps"}
  const RowFields: set<string> := {"user_id", "title", "time", "tags", "ingredients", "steps"}
  const DefaultLimit: int := 20
  const MaxLimit: int := 100

  // ---------------------------------------------------------------- POST /add

  /** The validation guard: every required field of the body is truthy. */
  predicate HasRequiredFields(body: JsValue)
    ensures HasRequiredFields(body) <==> forall k :: k in RequiredFields ==> Truthy(Field(body, k))
  {
    Truthy(Field(body, "user_id")) && Truthy(Field(body, "title"))
    && Truthy(Field(body, "ingredients")) && Truthy(Field(body, "steps"))
  }

  /** The row inserted for a body: the six destructured fields, copied as they are. */
  function RecipeRow(body: JsValue): (row: Row)
    ensures row.Keys == RowFields
    ensures forall k :: k in RowFields ==> row[k] == Field(body, k)
  {
    map k | k in RowFields :: Field(body, k)
  }

  /** The handler of `POST /recipes/add` up to its database call. */
  function PostAdd(body: JsValue): (plan: AddPlan)
    ensures plan.Reject? <==> exists k :: k in RequiredFields && !Truthy(Field(body, k))
    ensures plan.Reject? ==> plan.response == Response(400, ErrorBody("Missing required fields"))
    ensures plan.Insert? ==> plan.table == "recipes" && |plan.rows| == 1
    ensures plan.Insert? ==> plan.rows[0].Keys == RowFields
    ensures plan.Insert? ==> forall k :: k in RowFields ==> plan.rows[0][k] == Field(body, k)
  {
    if !HasRequiredFields(body) then
      assert !Truthy(Field(body, "user_id")) || !Truthy(Field(body, "title"))
        || !Truthy(Field(body, "ingredients")) || !Truthy(Field(body, "steps"));
      Reject(Response(400, ErrorBody("Missing required fields")))
    else
      Insert("recipes", [RecipeRow(body)])
  }

  /** The response both routes send once the database has replied. */
  function Respond(reply: DbReply): (resp: Response)
    ensures reply.DbError? ==> resp.status == 500 && resp.body == ErrorBody(reply.message)
    ensures reply.Data? ==> resp.status == 200 && resp.body == reply.value
  {
    match reply
    case DbError(message) => Response(500, ErrorBody(message))
    case Data(value) => Response(200, value)
  }

  /** The whole of `POST /add` given the database's answer to the insert:
      a rejected body never reaches the database, an accepted one answers
      with what the database replied. */
  function HandleAdd(body: JsValue, insertReply: DbReply): (resp: Response)
    ensures !HasRequiredFields(body) ==> resp == Response(400, ErrorBody("Missing required fields"))
    ensures HasRequiredFields(body) ==> resp == Respond(insertReply)
  {
    match PostAdd(body)
    case Reject(r) => r
    case Insert(_, _) => Respond(insertReply)
  }

  /** `time` and `tags` are optional: dropping them does not change whether a body is accepted. */
  lemma OptionalFieldsNotRequired(fields: map<string, JsValue>)
    ensures PostAdd(Obj(fields - {"time", "tags"})).Insert? == PostAdd(Obj(fields)).Insert?
  {
    var lean := Obj(fields - {"time", "tags"});
    assert forall k :: k in RequiredFields ==> Field(lean, k) == Field(Obj(fields), k);
  }

  /** Empty arrays are truthy, so a body with `ingredients: []` and `steps: []` passes the check. */
  lemma EmptyListsAccepted(userId: JsValue, title: JsValue)
    requires Truthy(userId) && Truthy(title)
    ensures PostAdd(Obj(map["user_id" := userId, "title" := title, "ingredients" := Arr([]), "steps" := Arr([])])).Insert?
  {
    var body := Obj(map["user_id" := userId, "title" := title, "ingredients" := Arr([]), "steps" := Arr([])]);
    assert Field(body, "user_id") == userId;
    assert Field(body, "title") == title;
    assert HasRequiredFields(body);
  }

  /** Fields outside the six are neither required nor copied: the plan for a
      body depends only on its six row fields. */
  lemma ExtraFieldsIgnored(fields: map<string, JsValue>, extra: map<string, JsValue>)
    requires extra.Keys !! RowFields
    ensures PostAdd(Obj(fields + extra)) == PostAdd(Obj(fields))
  {
    assert forall k :: k in RowFields ==> Field(Obj(fields + extra), k) == Field(Obj(fields), k);
    assert RecipeRow(Obj(fields + extra)) == RecipeRow(Obj(fields));
  }

  /** Posting the inserted row again is planned exactly like the original body. */
  lemma RowResubmits(body: JsValue)
    requires PostAdd(body).Insert?
    ensures PostAdd(Obj(PostAdd(body).rows[0])) == PostAdd(body)
  {
    var row := RecipeRow(body);
    assert forall k :: k in RowFields ==> Field(Obj(row), k) == Field(body, k);
    assert RecipeRow(Obj(row)) == row;
  }

  // ---------------------------------------------------------------- GET /list

  /** Whether String(v) meets an own `toString` key: qs lets `?limit[toString]=1`
      through, and then the object's `toString` is a string rather than a
      function. Array elements are converted too; the entries of an object are not. */
  predicate HidesToString(v: QueryValue) {
    match v
    case Dict(entries) => "toString" in entries
    case List(items) => exists i :: 0 <= i < |items| && HidesToString(items[i])
    case _ => false
  }

  /** String(v) for a query value, which parseInt applies to its argument:
      undefined becomes "undefined", an array is joined with "," (a missing
      element as ""), and an object becomes "[object Object]" unless its own
      `toString` is not callable, when the conversion throws a TypeError. */
  function QueryText(v: QueryValue): (r: Completion<string>)
    ensures r.Thrown? <==> HidesToString(v)
    ensures r.Thrown? ==> r.error == "TypeError"
    ensures v.Text? ==> r == Normal(v.s)
    ensures v.List? && |v.items| == 1 && !v.items[0].Absent? ==> r == QueryText(v.items[0])
    decreases v
  {
    match v
    case Absent => Normal("undefined")
    case Text(s) => Normal(s)
    case List(items) =>
      var parts := seq(|items|, i requires 0 <= i < |items| => if items[i].Absent? then Normal("") else QueryText(items[i]));
      assert forall i :: 0 <= i < |items| ==> (parts[i].Thrown? <==> HidesToString(items[i]));
      JoinTexts(parts)
    case Dict(entries) => if "toString" in entries then Thrown("TypeError") else Normal("[object Object]")
  }

  /** Array.prototype.join(",") over already converted elements: the first
      conversion that throws ends the join with its error. */
  function JoinTexts(parts: seq<Completion<string>>): (r: Completion<string>)
    ensures r.Normal? <==> forall i :: 0 <= i < |parts| ==> parts[i].Normal?
    ensures r.Thrown? ==> exists i :: 0 <= i < |parts| && parts[i] == r
    ensures r.Normal? && |parts| >= 1 ==> parts[0].value <= r.value
    ensures r.Normal? && |parts| >= 2 ==> |r.value| > |parts[0].value| && r.value[|parts[0].value|] == ','
    ensures |parts| == 1 ==> r == parts[0]
  {
    if parts == [] then Normal("")
    else if parts[0].Thrown? || |parts| == 1 then parts[0]
    else
      match JoinTexts(parts[1..])
      case Thrown(e) => Thrown(e)
      case Normal(tail) => Normal(parts[0].value + ("," + tail))
  }

  /** `parseInt(limit) || 20`, capped by `Math.min(…, 100)`. */
  function PageSize(parsed: ParsedInt): (r: int)
    ensures r <= MaxLimit && r != 0
    ensures parsed == NaN ==> r == DefaultLimit
    ensures parsed == Int(0) ==> r == DefaultLimit
    ensures parsed.Int? && parsed.value != 0 ==> r == if parsed.value <= MaxLimit then parsed.value else MaxLimit
  {
    var wanted := if parsed.NaN? || parsed.value == 0 then DefaultLimit else parsed.value;
    if wanted < MaxLimit then wanted else MaxLimit
  }

  /** The page size `Math.min(parseInt(limit) || 20, 100)`, or the TypeError
      String(limit) throws. */
  function ListLimit(limit: QueryValue): (r: Completion<int>)
    ensures r.Thrown? <==> HidesToString(limit)
    ensures r.Thrown? ==> r.error == "TypeError"
    ensures r.Normal? ==> r.value <= MaxLimit && r.value != 0
    ensures r.Normal? ==> r.value == PageSize(ParseInt(QueryText(limit).value))
  {
    match QueryText(limit)
    case Thrown(e) => Thrown(e)
    case Normal(s) => Normal(PageSize(ParseInt(s)))
  }

  /** `req.query.limit`: undefined when the parameter is missing. */
  function LimitParam(query: map<string, QueryValue>): QueryValue {
    if "limit" in query then query["limit"] else Absent
  }

  /** The handler of `GET /recipes/list` up to its database call. A throwing
      conversion of `limit` rejects the handler before any query is sent. */
  function GetList(query: map<string, QueryValue>): (r: Completion<ListQuery>)
    ensures r.Thrown? <==> HidesToString(LimitParam(query))
    ensures r.Normal? ==> r.value.table == "recipes" && r.value.columns == "*"
    ensures r.Normal? ==> r.value.orderBy == "created_at" && !r.value.ascending
    ensures r.Normal? ==> r.value.limit == ListLimit(LimitParam(query)).value
    ensures r.Normal? ==> r.value.limit <= MaxLimit && r.value.limit != 0
    ensures "limit" !in query ==> r == Normal(ListQuery("recipes", "*", "created_at", false, DefaultLimit))
  {
    assert "limit" !in query ==> ParseInt(QueryText(LimitParam(query)).value) == NaN by {
      if "limit" !in query {
        ParseIntWithoutDigits("", "", "undefined");
        assert "" + "" + "undefined" == "undefined";
      }
    }
    match ListLimit(LimitParam(query))
    case Thrown(e) => Thrown(e)
    case Normal(limit) => Normal(ListQuery("recipes", "*", "created_at", false, limit))
  }

  /** The whole of `GET /list` given the database's answer to the select:
      the select is sent only when `limit` converts, and then its reply is
      answered as `POST /add` answers an insert. */
  function ListRoute(query: map<string, QueryValue>, selectReply: DbReply): (r: Completion<Response>)
    ensures r.Thrown? <==> HidesToString(LimitParam(query))
    ensures r.Normal? ==> r.value == Respond(selectReply)
    ensures r.Normal? && selectReply.DbError? ==> r.value == Response(500, ErrorBody(selectReply.message))
    ensures r.Normal? && selectReply.Data? ==> r.value == Response(200, selectReply.value)
  {
    match GetList(query)
    case Thrown(e) => Thrown(e)
    case Normal(_) => Normal(Respond(selectReply))
  }

  /** A limit written as a number, possibly padded, signed, hexadecimal and
      followed by other text, gives that number when it is non-zero and at
      most 100, 100 when it is larger, and 20 when it is zero. Negative
      numbers pass through unclamped. */
  lemma ListLimitOfNumeral(ws: string, sign: string, hex: bool, n: nat, rest: string)
    requires forall i :: 0 <= i < |ws| ==> IsStrWhiteSpace(ws[i])
    requires sign == "" || sign == "+" || sign == "-"
    requires rest == [] || !IsRadixDigit(rest[0], if hex then 16 else 10)
    requires !hex && n == 0 && rest != [] ==> rest[0] != 'x' && rest[0] != 'X'
    ensures var m := Signed(sign, n);
      ListLimit(Text(ws + (sign + ((if hex then "0x" else "") + (Numeral(n, if hex then 16 else 10) + rest)))))
      == Normal(if m == 0 then DefaultLimit else if m <= MaxLimit then m else MaxLimit)
  {
    ParseIntOfNumeral(ws, sign, hex, n, rest);
  }

  /** Any run of digits, canonical or not ("050", "0x0040", "0X1F"), sets
      the page size from the number it denotes. */
  lemma ListLimitOfDigits(ws: string, sign: string, prefix: string, d: string, rest: string)
    requires forall i :: 0 <= i < |ws| ==> IsStrWhiteSpace(ws[i])
    requires sign == "" || sign == "+" || sign == "-"
    requires prefix == "" || prefix == "0x" || prefix == "0X"
    requires d != [] && forall i :: 0 <= i < |d| ==> IsRadixDigit(d[i], if prefix == "" then 10 else 16)
    requires rest == [] || !IsRadixDigit(rest[0], if prefix == "" then 10 else 16)
    requires prefix == "" && d == "0" && rest != [] ==> rest[0] != 'x' && rest[0] != 'X'
    ensures var n := Value(d, if prefix == "" then 10 else 16);
      var m := Signed(sign, n);
      ListLimit(Text(ws + (sign + (prefix + (d + rest)))))
      == Normal(if m == 0 then DefaultLimit else if m <= MaxLimit then m else MaxLimit)
  {
    ParseIntOfDigits(ws, sign, prefix, d, rest);
  }

  /** Leading zeros on a decimal limit are ignored: `?limit=007` is `?limit=7`. */
  lemma LeadingZerosIgnored(z: string, n: nat)
    requires forall i :: 0 <= i < |z| ==> z[i] == '0'
    ensures ListLimit(Text(z + Numeral(n, 10))) == ListLimit(Text(Numeral(n, 10)))
  {
    var d := z + Numeral(n, 10);
    NumeralValue(n, 10);
    assert forall i :: 0 <= i < |d| ==> IsRadixDigit(d[i], 10) by {
      forall i | 0 <= i < |d| ensures IsRadixDigit(d[i], 10) {
        if i < |z| { assert d[i] == z[i]; } else { assert d[i] == Numeral(n, 10)[i - |z|]; }
      }
    }
    assert ParseInt(d) == Int(n) by {
      ParseIntOfDigits("", "", "", d, "");
      assert "" + ("" + ("" + (d + ""))) == d;
      ValueLeadingZeros(z, Numeral(n, 10), 10);
    }
    assert ParseInt(Numeral(n, 10)) == Int(n) by {
      ParseIntOfNumeral("", "", false, n, "");
      assert "" + ("" + ("" + (Numeral(n, 10) + ""))) == Numeral(n, 10);
    }
  }

  /** With a repeated parameter (`?limit=30&limit=abc`), the page size is set
      by the first value alone, whatever follows it, as long as none of the
      values throws. */
  lemma RepeatedLimitUsesFirst(items: seq<QueryValue>)
    requires |items| >= 1 && !HidesToString(List(items))
    ensures ListLimit(List(items)) == ListLimit(if items[0].Absent? then Text("") else items[0])
  {
    var parts := seq(|items|, i requires 0 <= i < |items| => if items[i].Absent? then Normal("") else QueryText(items[i]));
    var whole := QueryText(List(items)).value;
    var first := parts[0].value;
    assert QueryText(List(items)) == JoinTexts(parts);
    assert QueryText(if items[0].Absent? then Text("") else items[0]) == Normal(first);
    if |items| >= 2 {
      assert whole == first + whole[|first|..];
      assert whole[|first|..][0] == ',';
      ParseIntStopsAt(first, whole[|first|..]);
    } else {
      assert whole == first;
    }
  }

  /** An object limit gives the default page size, or the TypeError of an own `toString`. */
  lemma ObjectLimit(entries: map<string, QueryValue>)
    ensures ListLimit(Dict(entries)) == if "toString" in entries then Thrown("TypeError") else Normal(DefaultLimit)
  {
    ParseIntWithoutDigits("", "", "[object Object]");
    assert "" + "" + "[object Object]" == "[object Object]";
  }

  /** A text limit with no digits after optional white space and sign gives the default 20. */
  lemma ListLimitWithoutDigits(ws: string, sign: string, rest: string)
    requires forall i :: 0 <= i < |ws| ==> IsStrWhiteSpace(ws[i])
    requires sign == "" || sign == "+" || sign == "-"
    requires rest == [] || (!IsRadixDigit(rest[0], 10) && !IsStrWhiteSpace(rest[0]))
    requires sign == "" ==> rest == [] || (rest[0] != '+' && rest[0] != '-')
    ensures ListLimit(Text(ws + sign + rest)) == Normal(DefaultLimit)
  {
    ParseIntWithoutDigits(ws, sign, rest);
  }
}
