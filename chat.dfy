/**
 * The `/chat` endpoint of app/main.py: a keyword router over the lower-cased
 * query. Each rule is tried in order; the first that fires decides which
 * service is called, with which path and payload, and a query no rule
 * claims falls through to retrieval. The services are not called here: the
 * router's result is the call it would make.
 */
module Chat {
  import opened Wrappers
  import opened Text
  import opened Collections
  import opened Http
  import Tasks

  /** The JSON bodies chat sends: {"title", "due"} to /add and {"external_ref", "docs"} to /fnol. */
  datatype Payload = AddTaskPayload(title: string, due: string) | FnolPayload(externalRef: string, docs: int)

  /**
   * Why the FNOL rule raises before calling anything: "external ref" is
   * missing (IndexError), "with" is missing (ValueError on unpacking), or
   * the document count is not an integer (ValueError from int()).
   */
  datatype FnolError = NoExternalRef | NoWith | BadDocCount

  /** The call chat makes: through _tasks, through _claims, to search_topk, or none when the FNOL rule raises. */
  datatype Route =
    | TasksCall(path: string, payload: Option<Payload>)
    | ClaimsCall(path: string, verb: string, payload: Option<Payload>)
    | SearchCall(query: string)
    | FnolFailed(error: FnolError)

  /** _tasks posts when it has a payload and gets otherwise (every payload chat builds is a non-empty dict). */
  function TasksMethod(payload: Option<Payload>): Method {
    if payload.Some? then Post else Get
  }

  /** _claims posts when `method.lower() == "post"` on the given method name and gets otherwise. */
  function ClaimsMethod(verb: string): Method {
    if Lower(verb) == "post" then Post else Get
  }

  /** `s.split(sep, 1)[-1]`: what follows the first sep, or all of s when there is none. */
  function AfterFirst(s: string, sep: string): string {
    match Find(s, sep)
    case Some(i) => s[i + |sep|..]
    case None => s
  }

  /**
   * `title, due = parts.rsplit(" due ", 1)` when " due " occurs in parts, and
   * `parts, ""` otherwise, both stripped (rsplit finds an occurrence exactly
   * when `in` does, by ContainsIffFindLast).
   */
  function SplitDue(parts: string): (string, string) {
    match FindLast(parts, " due ")
    case Some(j) => (Strip(parts[..j]), Strip(parts[j + 5..]))
    case None => (Strip(parts), "")
  }

  /** The title and due date of "add a task": the text after the first ':', stripped, then SplitDue. */
  function AddTaskArgs(query: string): (string, string) {
    SplitDue(Strip(AfterFirst(query, ":")))
  }

  /** `query.split()[-1]`. */
  function LastWord(query: string): string
    requires Words(query) != []
  {
    Words(query)[|Words(query)| - 1]
  }

  /** `s.split(sep)[0]`: what precedes the first sep, or all of s when there is none. */
  function BeforeFirst(s: string, sep: string): string {
    match Find(s, sep)
    case Some(i) => s[..i]
    case None => s
  }

  /** `int(rest.split("doc")[0].strip())`. */
  function DocCount(rest: string): Option<int> {
    ParseInt(Strip(BeforeFirst(rest, "doc")))
  }

  /** `ext_ref, rest = parts.split("with", 1)`, then the count read from rest. */
  function FnolFields(parts: string): Result<(string, int), FnolError> {
    match Find(parts, "with")
    case None => Err(NoWith)
    case Some(w) =>
      match DocCount(parts[w + 4..])
      case None => Err(BadDocCount)
      case Some(n) => Ok((Strip(parts[..w]), n))
  }

  /**
   * The external reference and document count of "create fnol", read from
   * the lower-cased query: the text after the first "external ref",
   * stripped, then FnolFields.
   */
  function FnolArgs(q: string): Result<(string, int), FnolError> {
    match Find(q, "external ref")
    case None => Err(NoExternalRef)
    case Some(i) => FnolFields(Strip(q[i + 12..]))
  }

  /** What a query asks for: the rule that claims it. */
  datatype Intent = ListTasks | AddTask | CompleteTask | ClaimsStatus | GetClaim | CreateFnol

  /**
   * chat's keyword tests on the lower-cased query, in the order it makes
   * them: five prefix tests and one substring test.
   */
  function KeywordIntent(q: string): (r: Option<Intent>)
    ensures r == Some(CompleteTask) ==> StartsWith(q, "complete task")
    ensures r == Some(GetClaim) ==> StartsWith(q, "get claim")
  {
    if StartsWith(q, "list my tasks") then Some(ListTasks)
    else if StartsWith(q, "add a task") then Some(AddTask)
    else if StartsWith(q, "complete task") then Some(CompleteTask)
    else if Contains(q, "claims service status") then Some(ClaimsStatus)
    else if StartsWith(q, "get claim") then Some(GetClaim)
    else if StartsWith(q, "create fnol") then Some(CreateFnol)
    else None
  }

  /** A query whose lower-case form starts with a non-space character has a last word. */
  lemma LeadingWord(query: string, p: string)
    requires StartsWith(Lower(query), p)
    requires p != [] && !IsSpace(p[0])
    ensures Words(query) != []
  {
    assert Lower(query)[0] == p[0];
    WordsNonEmpty(query);
  }

  /** The chat handler: the first keyword test that succeeds picks the call; none succeeding means retrieval. */
  function Chat(query: string): Route {
    var q := Lower(query);
    match KeywordIntent(q)
    case Some(ListTasks) => TasksCall("list", None)
    case Some(AddTask) =>
      var (title, due) := AddTaskArgs(query);
      TasksCall("add", Some(AddTaskPayload(title, due)))
    case Some(CompleteTask) =>
      LeadingWord(query, "complete task");
      TasksCall("complete/" + LastWord(query), None)
    case Some(ClaimsStatus) => ClaimsCall("status", "get", None)
    case Some(GetClaim) =>
      LeadingWord(query, "get claim");
      ClaimsCall("claim/" + LastWord(query), "get", None)
    case Some(CreateFnol) =>
      (match FnolArgs(q)
       case Ok((extRef, docs)) => ClaimsCall("fnol", "post", Some(FnolPayload(extRef, docs)))
       case Err(e) => FnolFailed(e))
    case None => SearchCall(query)
  }

  /** A rule: a keyword that must start the lower-cased query, or only occur in it. */
  datatype Rule = Rule(keyword: string, prefixOnly: bool, intent: Intent)

  /** The rule table, in the order chat tries it. */
  const Rules: seq<Rule> := [
    Rule("list my tasks", true, ListTasks),
    Rule("add a task", true, AddTask),
    Rule("complete task", true, CompleteTask),
    Rule("claims service status", false, ClaimsStatus),
    Rule("get claim", true, GetClaim),
    Rule("create fnol", true, CreateFnol)
  ]

  predicate Fires(r: Rule, q: string) {
    if r.prefixOnly then StartsWith(q, r.keyword) else Contains(q, r.keyword)
  }

  function FiresOn(q: string): Rule -> bool {
    (r: Rule) => Fires(r, q)
  }

  /** The intent of the first rule of the table that fires on a lower-cased query q, if any. */
  function RuleIntent(q: string): Option<Intent> {
    match FirstWith(Rules, FiresOn(q))
    case Some(k) => Some(Rules[k].intent)
    case None => None
  }

  /** The rule intent of a query: that of its lower-case form. */
  function FirstIntent(query: string): Option<Intent> {
    RuleIntent(Lower(query))
  }

  /** Which rule produced a route, read off the route itself. */
  function IntentOf(route: Route): Option<Intent> {
    match route
    case TasksCall(path, _) =>
      if path == "list" then Some(ListTasks) else if path == "add" then Some(AddTask) else Some(CompleteTask)
    case ClaimsCall(path, _, _) =>
      if path == "status" then Some(ClaimsStatus) else if path == "fnol" then Some(CreateFnol) else Some(GetClaim)
    case SearchCall(_) => None
    case FnolFailed(_) => Some(CreateFnol)
  }

  /** Reading the rule table in order agrees with chat's sequence of keyword tests. */
  lemma RuleIntentCases(q: string)
    ensures RuleIntent(q) == KeywordIntent(q)
  {
    var fires := FiresOn(q);
    assert fires(Rules[0]) == StartsWith(q, "list my tasks");
    assert fires(Rules[1]) == StartsWith(q, "add a task");
    assert fires(Rules[2]) == StartsWith(q, "complete task");
    assert fires(Rules[3]) == Contains(q, "claims service status");
    assert fires(Rules[4]) == StartsWith(q, "get claim");
    assert fires(Rules[5]) == StartsWith(q, "create fnol");
    if fires(Rules[0]) {
      FirstWithAt(Rules, fires, 0);
    } else if fires(Rules[1]) {
      FirstWithAt(Rules, fires, 1);
    } else if fires(Rules[2]) {
      FirstWithAt(Rules, fires, 2);
    } else if fires(Rules[3]) {
      FirstWithAt(Rules, fires, 3);
    } else if fires(Rules[4]) {
      FirstWithAt(Rules, fires, 4);
    } else if fires(Rules[5]) {
      FirstWithAt(Rules, fires, 5);
    } else {
      assert forall k :: 0 <= k < |Rules| ==> !fires(Rules[k]);
    }
  }

  /** The route chat builds carries the intent its keyword tests found; none found means retrieval on the original query. */
  lemma ChatIntent(query: string)
    ensures IntentOf(Chat(query)) == KeywordIntent(Lower(query))
    ensures Chat(query).SearchCall? <==> KeywordIntent(Lower(query)).None?
    ensures Chat(query).SearchCall? ==> Chat(query).query == query
  {
  }

  /** The route chat takes is the one of the first rule in the table that fires; no rule firing means retrieval on the original query. */
  lemma ChatFollowsRules(query: string)
    ensures IntentOf(Chat(query)) == FirstIntent(query)
    ensures Chat(query).SearchCall? <==> FirstIntent(query).None?
    ensures Chat(query).SearchCall? ==> Chat(query).query == query
  {
    ChatIntent(query);
    RuleIntentCases(Lower(query));
  }

  /** Routing depends on the query only through its lower-case form. */
  lemma RoutingIgnoresCase(a: string, b: string)
    requires Lower(a) == Lower(b)
    ensures IntentOf(Chat(a)) == IntentOf(Chat(b))
  {
    ChatIntent(a);
    ChatIntent(b);
  }

  /** Only "add a task" makes _tasks post; only "create fnol" makes _claims post. */
  lemma ChatMethods(query: string)
    ensures Chat(query).TasksCall? ==> (TasksMethod(Chat(query).payload) == Post <==> IntentOf(Chat(query)) == Some(AddTask))
    ensures Chat(query).ClaimsCall? ==> (ClaimsMethod(Chat(query).verb) == Post <==> IntentOf(Chat(query)) == Some(CreateFnol))
  {
    assert Lower("get") == "get" && Lower("post") == "post";
  }

  /** The add command's fixed opening, lower-cased. */
  lemma AddLeadLower()
    ensures Lower("Add a task: ") == "add a task: "
  {
  }

  /** The add command's opening has its first ':' at 10 and starts with the add keyword once lower-cased. */
  lemma AddLeadChars()
    ensures Find("Add a task: ", ":") == Some(10)
    ensures StartsWith("add a task: ", "add a task")
  {
    var s := "Add a task: ";
    assert OccursAt(s, ":", 10);
    assert forall j :: 0 <= j < 10 ==> s[j] != ':';
    FindByFirstChar(s, ":", 10);
    StartsWithByChars("add a task: ", "add a task");
  }

  /** "Add a task: " picks the add rule, and its ':' is the first. */
  lemma AddTaskPrefix(query: string, rest: string)
    requires query == "Add a task: " + rest
    ensures KeywordIntent(Lower(query)) == Some(AddTask)
    ensures AfterFirst(query, ":") == " " + rest
  {
    var lead := "Add a task: ";
    AddLeadLower();
    AddLeadChars();
    LowerConcat(lead, rest);
    var q := Lower(query);
    assert q == "add a task: " + Lower(rest);
    StartsWithConcat("add a task: ", Lower(rest), "add a task");
    NotStartsWithChar(q, "list my tasks", 0);
    FindInPrefix(lead, rest, ":");
    assert query[11..] == " " + rest;
  }

  /** In title + " due " + due, with due a single word, the last " due " is the one after the title. */
  lemma LastDue(title: string, due: string)
    requires IsWord(due)
    ensures FindLast(title + " due " + due, " due ") == Some(|title|)
  {
    var parts := title + " due " + due;
    var t := |title|;
    assert parts[t..t + 5] == " due ";
    forall j | t < j <= |parts| ensures !OccursAt(parts, " due ", j) {
      if j + 5 <= |parts| {
        if j <= t + 3 {
          assert parts[j] == (" due " + due)[j - t];
          NotOccursAtChar(parts, " due ", j, 0);
        } else {
          assert parts[j + 4] == due[j + 4 - t - 5];
          NotOccursAtChar(parts, " due ", j, 4);
        }
      }
    }
    FindLastIsLast(parts, " due ", t);
  }

  /** rsplit at the last " due " gives back a stripped title and a one-word date. */
  lemma SplitDueOf(title: string, due: string)
    requires IsStripped(title)
    requires IsWord(due)
    ensures SplitDue(title + " due " + due) == (title, due)
  {
    var parts := title + " due " + due;
    LastDue(title, due);
    assert parts[..|title|] == title;
    assert parts[|title| + 5..] == due;
    StripStripped(title);
    StripStripped(due);
  }

  /** "Add a task: <title> due <due>": the title keeps its case, the date is the last word. */
  lemma AddTaskRoundTrip(title: string, due: string)
    requires title != [] && IsStripped(title)
    requires IsWord(due)
    ensures Chat("Add a task: " + title + " due " + due) == TasksCall("add", Some(AddTaskPayload(title, due)))
  {
    var parts := title + " due " + due;
    var query := "Add a task: " + title + " due " + due;
    assert query == "Add a task: " + parts;
    AddTaskPrefix(query, parts);
    assert IsStripped(parts) by {
      assert parts[0] == title[0];
      assert parts[|parts| - 1] == due[|due| - 1];
    }
    StripSpaceBefore(parts);
    SplitDueOf(title, due);
  }

  /**
   * "Add a task: <rest>" whose stripped rest has no " due ": the title is
   * the stripped rest and the due date is empty.
   */
  lemma AddTaskWithoutDue(rest: string)
    requires !Contains(Strip(rest), " due ")
    ensures Chat("Add a task: " + rest) == TasksCall("add", Some(AddTaskPayload(Strip(rest), "")))
  {
    var query := "Add a task: " + rest;
    AddTaskPrefix(query, rest);
    StripLeadingSpace(rest);
    StripStripped(Strip(rest));
    ContainsIffFindLast(Strip(rest), " due ");
  }

  /** The words of "<a> <b> <id>". */
  lemma ThreeWords(a: string, b: string, id: string)
    requires IsWord(a) && IsWord(b) && IsWord(id)
    ensures Words(a + " " + b + " " + id) == [a, b, id]
  {
    var ws := [a, b, id];
    assert ws[1..] == [b, id] && ws[1..][1..] == [id];
    assert Join([id], " ") == id;
    assert Join([b, id], " ") == b + " " + id;
    assert Join(ws, " ") == a + " " + (b + " " + id);
    assert a + " " + (b + " " + id) == a + " " + b + " " + id;
    WordsOfJoin(ws);
  }

  /** The openings of the complete and get commands, lower-cased. */
  lemma CompleteAndGetLeads()
    ensures Lower("Complete task ") == "complete task "
    ensures StartsWith("complete task ", "complete task")
    ensures Lower("Get claim ") == "get claim "
    ensures StartsWith("get claim ", "get claim")
    ensures IsWord("Complete") && IsWord("task") && IsWord("Get") && IsWord("claim")
  {
    StartsWithByChars("complete task ", "complete task");
    StartsWithByChars("get claim ", "get claim");
  }

  /** "Complete task <id>" targets complete/<id>, with no payload. */
  lemma CompleteTaskRoute(id: string)
    requires IsWord(id)
    ensures Chat("Complete task " + id) == TasksCall("complete/" + id, None)
  {
    var query := "Complete task " + id;
    CompleteAndGetLeads();
    LowerConcat("Complete task ", id);
    var q := Lower(query);
    assert q == "complete task " + Lower(id);
    StartsWithConcat("complete task ", Lower(id), "complete task");
    NotStartsWithChar(q, "list my tasks", 0);
    NotStartsWithChar(q, "add a task", 0);
    assert query == "Complete" + " " + "task" + " " + id;
    ThreeWords("Complete", "task", id);
  }

  /** "Get claim <id>" fetches claim/<id>, for every one-token id. */
  lemma GetClaimRoute(id: string)
    requires IsWord(id)
    ensures Chat("Get claim " + id) == ClaimsCall("claim/" + id, "get", None)
  {
    GetClaimHasNoStatus(id);
    var query := "Get claim " + id;
    CompleteAndGetLeads();
    LowerConcat("Get claim ", id);
    var q := Lower(query);
    assert q == "get claim " + Lower(id);
    StartsWithConcat("get claim ", Lower(id), "get claim");
    NotStartsWithChar(q, "list my tasks", 0);
    NotStartsWithChar(q, "add a task", 0);
    NotStartsWithChar(q, "complete task", 0);
    assert query == "Get" + " " + "claim" + " " + id;
    ThreeWords("Get", "claim", id);
  }

  /**
   * "get claim <id>" never holds the status keyword: past the opening it has
   * no whitespace, and the keyword's second space lies 14 characters in.
   */
  lemma GetClaimHasNoStatus(id: string)
    requires IsWord(id)
    ensures !Contains(Lower("Get claim " + id), "claims service status")
  {
    var key := "claims service status";
    LowerConcat("Get claim ", id);
    var q := Lower("Get claim " + id);
    assert q == "get claim " + Lower(id);
    forall at: nat | at + |key| <= |q| ensures !OccursAt(q, key, at) {
      assert q[at + 14] == LowerChar(id[at + 4]) != key[14];
    }
    FindSpec(q, key);
  }

  /** The FNOL command's fixed opening, lower-cased. */
  lemma FnolLeadLower()
    ensures Lower("Create FNOL for external ref ") == "create fnol for external ref "
  {
  }

  /** In the lower-cased FNOL opening, "external ref" first occurs at 16. */
  lemma FnolLeadFind()
    ensures Find("create fnol for external ref ", "external ref") == Some(16)
  {
    var s := "create fnol for external ref ";
    var p := "external ref";
    assert OccursAt(s, p, 16);
    assert forall j :: 0 <= j < 16 ==> s[j] != 'e' || s[j + 1] != 'x';
    FindByFirstTwoChars(s, p, 16);
  }

  /** The lower-cased FNOL opening starts with "create fnol" and ends in the space at 28. */
  lemma FnolLeadChars()
    ensures StartsWith("create fnol for external ref ", "create fnol")
    ensures var s := "create fnol for external ref "; |s| == 29 && s[0] == 'c' && s[1] == 'r' && s[28] == ' '
  {
    StartsWithByChars("create fnol for external ref ", "create fnol");
  }

  /** The FNOL query lower-cases to the lower-cased opening and the lower-cased rest. */
  lemma FnolLowerQuery(query: string, rest: string)
    requires query == "Create FNOL for external ref " + rest
    ensures Lower(query) == "create fnol for external ref " + Lower(rest)
  {
    FnolLeadLower();
    LowerConcat("Create FNOL for external ref ", rest);
  }

  /** In the lower-cased FNOL query the first "external ref" is the one at 16, followed by a space and the rest. */
  lemma FnolFindInQuery(q: string, r: string)
    requires q == "create fnol for external ref " + r
    ensures Find(q, "external ref") == Some(16)
    ensures q[28..] == " " + r
  {
    var lead := "create fnol for external ref ";
    FnolLeadFind();
    FnolLeadChars();
    FindInPrefix(lead, r, "external ref");
    DropConcat(lead, r, 28);
    assert lead[28..] == [lead[28]];
  }

  /** A lower-cased query that opens with the FNOL opening picks the FNOL rule unless the status keyword occurs. */
  lemma FnolKeyword(q: string, r: string)
    requires q == "create fnol for external ref " + r
    requires !Contains(q, "claims service status")
    ensures KeywordIntent(q) == Some(CreateFnol)
  {
    var lead := "create fnol for external ref ";
    FnolLeadChars();
    StartsWithConcat(lead, r, "create fnol");
    assert q[0] == lead[0] == 'c' && q[1] == lead[1] == 'r';
    var list, add, complete, get := "list my tasks", "add a task", "complete task", "get claim";
    assert list[0] == 'l' && add[0] == 'a' && complete[1] == 'o' && get[0] == 'g';
    NotStartsWithChar(q, list, 0);
    NotStartsWithChar(q, add, 0);
    NotStartsWithChar(q, complete, 1);
    NotStartsWithChar(q, get, 0);
  }

  /** On a query that picks the FNOL rule, chat posts what FnolArgs reads, or fails as FnolArgs does. */
  lemma ChatFnol(query: string)
    requires KeywordIntent(Lower(query)) == Some(CreateFnol)
    ensures Chat(query) == match FnolArgs(Lower(query))
                           case Ok((extRef, docs)) => ClaimsCall("fnol", "post", Some(FnolPayload(extRef, docs)))
                           case Err(e) => FnolFailed(e)
  {
  }

  /** FnolArgs where "external ref" first occurs at i: FnolFields of what follows it, stripped. */
  lemma FnolArgsAt(q: string, i: nat)
    requires Find(q, "external ref") == Some(i)
    ensures FnolArgs(q) == FnolFields(Strip(q[i + 12..]))
  {
  }

  /** Every character of str(n) is a digit or the minus sign. */
  lemma IntToStringChars(n: int, k: nat)
    requires k < |IntToString(n)|
    ensures IntToString(n)[k] == '-' || IsDigit(IntToString(n)[k])
  {
    if n < 0 && k > 0 {
      assert IntToString(n)[k] == NatToString(-n)[k - 1];
    }
  }

  /** " " + str(n) holds no "doc". */
  lemma NoDocInCount(n: int)
    ensures !Contains(" " + IntToString(n), "doc")
  {
    var digits := IntToString(n);
    var padded := " " + digits;
    forall j | 0 <= j <= |padded| ensures !OccursAt(padded, "doc", j) {
      if j < |padded| {
        if j > 0 {
          assert padded[j] == digits[j - 1];
          IntToStringChars(n, j - 1);
        }
        NotOccursAtChar(padded, "doc", j, 0);
      }
    }
    FindIsAbsent(padded, "doc");
  }

  /** The count part " <n> docs" of the FNOL query reads back as n, unless n has too many digits for int(). */
  lemma DocCountOf(n: int)
    ensures DocCount(" " + IntToString(n) + " docs") == if WithinDigitLimit(n) then Some(n) else None
  {
    var digits := IntToString(n);
    var padded := " " + digits;
    var rest := padded + " " + "docs";
    assert rest == " " + digits + " docs";
    NoDocInCount(n);
    FindPastSpace(padded, "docs", "doc");
    FindIsFirst("docs", "doc", 0);
    assert BeforeFirst(rest, "doc") == " " + digits + " ";
    assert IsStripped(digits) by {
      IntToStringChars(n, 0);
      IntToStringChars(n, |digits| - 1);
    }
    StripSpaceAround(digits);
    ParseIntOfIntToString(n);
  }

  /** In "<r> with<c>", with no "with" in r, the first "with" is the one after r: before it lies r and a space, after it c. */
  lemma FnolWithAt(r: string, c: string)
    requires !Contains(r, "with")
    ensures Find(r + " with" + c, "with") == Some(|r| + 1)
    ensures (r + " with" + c)[..|r| + 1] == r + " " && (r + " with" + c)[|r| + 5..] == c
  {
    var afterRef := "with" + c;
    var parts := r + " with" + c;
    assert parts == r + " " + afterRef == (r + " ") + afterRef;
    FindIsFirst(afterRef, "with", 0);
    FindPastSpace(r, afterRef, "with");
    SplitConcat(r + " ", afterRef);
    SplitConcat("with", c);
  }

  /** FnolFields where "with" first occurs at w: the stripped text before it, or BadDocCount when the count after it is no integer. */
  lemma FnolFieldsAt(parts: string, w: nat)
    requires Find(parts, "with") == Some(w)
    ensures DocCount(parts[w + 4..]).Some? ==> FnolFields(parts) == Ok((Strip(parts[..w]), DocCount(parts[w + 4..]).value))
    ensures DocCount(parts[w + 4..]).None? ==> FnolFields(parts) == Err(BadDocCount)
  {
  }

  /** Splitting "<r> with<c>" at the first "with" gives back r and the count read from c, or BadDocCount. */
  lemma FnolFieldsOf(r: string, c: string)
    requires IsStripped(r) && !Contains(r, "with")
    ensures DocCount(c).Some? ==> FnolFields(r + " with" + c) == Ok((r, DocCount(c).value))
    ensures DocCount(c).None? ==> FnolFields(r + " with" + c) == Err(BadDocCount)
  {
    FnolWithAt(r, c);
    StripSpaceAfter(r);
    FnolFieldsAt(r + " with" + c, |r| + 1);
  }

  /** The text after "external ref", " <r> with <n> docs", stripped and split, gives back r and n. */
  lemma FnolRestFields(r: string, n: int)
    requires r != [] && IsStripped(r) && !Contains(r, "with")
    ensures FnolFields(Strip(" " + r + " with" + (" " + IntToString(n) + " docs")))
            == if WithinDigitLimit(n) then Ok((r, n)) else Err(BadDocCount)
  {
    var c := " " + IntToString(n) + " docs";
    var parts := r + " with" + c;
    assert " " + r + " with" + c == " " + parts;
    StrippedConcat(r, " with" + c);
    StripSpaceBefore(parts);
    DocCountOf(n);
    FnolFieldsOf(r, c);
  }

  /** FnolArgs on "... external ref <r> with <n> docs" gives back r and n. */
  lemma FnolArgsOf(q: string, r: string, n: int)
    requires r != [] && IsStripped(r) && !Contains(r, "with")
    requires |q| >= 28 && Find(q, "external ref") == Some(16)
    requires q[28..] == " " + r + " with" + (" " + IntToString(n) + " docs")
    ensures FnolArgs(q) == if WithinDigitLimit(n) then Ok((r, n)) else Err(BadDocCount)
  {
    FnolArgsAt(q, 16);
    FnolRestFields(r, n);
  }

  /** Lower-casing the end of the FNOL query touches only the reference. */
  lemma FnolTailLower(extRef: string, n: int)
    ensures var c := " " + IntToString(n) + " docs";
            " " + Lower(extRef + " with" + c) == " " + Lower(extRef) + " with" + c
  {
    var c := " " + IntToString(n) + " docs";
    LowerConcat(extRef + " with", c);
    LowerConcat(extRef, " with");
    LowerConcat(" ", IntToString(n) + " docs");
    LowerConcat(IntToString(n), " docs");
    LowerOfIntToString(n);
    assert Lower(" with") == " with" && Lower(" docs") == " docs" && Lower(" ") == " ";
  }

  /** The lower-cased FNOL query picks the FNOL rule and reads back the lower-cased reference and the count. */
  lemma FnolQueryParsed(extRef: string, n: int)
    requires extRef != [] && IsStripped(Lower(extRef))
    requires !Contains(Lower(extRef), "with")
    requires !Contains(Lower("Create FNOL for external ref " + extRef + " with " + IntToString(n) + " docs"), "claims service status")
    ensures var q := Lower("Create FNOL for external ref " + extRef + " with " + IntToString(n) + " docs");
            && KeywordIntent(q) == Some(CreateFnol)
            && FnolArgs(q) == if WithinDigitLimit(n) then Ok((Lower(extRef), n)) else Err(BadDocCount)
  {
    var c := " " + IntToString(n) + " docs";
    var query := "Create FNOL for external ref " + extRef + " with " + IntToString(n) + " docs";
    var rest := extRef + " with" + c;
    assert query == "Create FNOL for external ref " + rest;
    FnolLowerQuery(query, rest);
    var q := Lower(query);
    FnolFindInQuery(q, Lower(rest));
    FnolKeyword(q, Lower(rest));
    FnolTailLower(extRef, n);
    FnolArgsOf(q, Lower(extRef), n);
  }

  /**
   * "Create FNOL for external ref <ref> with <n> docs" posts the lower-cased
   * reference and the count n, provided the reference does not itself say
   * "with" and the query does not trip the status rule first. A count with
   * more digits than int() accepts raises ValueError before any call.
   */
  lemma FnolRoundTrip(extRef: string, n: int)
    requires extRef != [] && IsStripped(Lower(extRef))
    requires !Contains(Lower(extRef), "with")
    requires !Contains(Lower("Create FNOL for external ref " + extRef + " with " + IntToString(n) + " docs"), "claims service status")
    ensures Chat("Create FNOL for external ref " + extRef + " with " + IntToString(n) + " docs")
            == if WithinDigitLimit(n) then ClaimsCall("fnol", "post", Some(FnolPayload(Lower(extRef), n)))
               else FnolFailed(BadDocCount)
  {
    FnolQueryParsed(extRef, n);
    ChatFnol("Create FNOL for external ref " + extRef + " with " + IntToString(n) + " docs");
  }

  /** An FNOL query that never says "external ref" raises IndexError before any call. */
  lemma FnolWithoutRef(query: string)
    requires KeywordIntent(Lower(query)) == Some(CreateFnol)
    requires !Contains(Lower(query), "external ref")
    ensures Chat(query) == FnolFailed(NoExternalRef)
  {
    ChatFnol(query);
  }

  /**
   * An FNOL query whose stripped text after the first "external ref" has no
   * "with" raises ValueError on unpacking, before any call.
   */
  lemma FnolWithoutWith(query: string)
    requires KeywordIntent(Lower(query)) == Some(CreateFnol)
    requires Contains(Lower(query), "external ref")
    requires !Contains(Strip(AfterFirst(Lower(query), "external ref")), "with")
    ensures Chat(query) == FnolFailed(NoWith)
  {
    var q := Lower(query);
    FnolArgsAt(q, Find(q, "external ref").value);
    ChatFnol(query);
  }

  /**
   * An FNOL query whose count, the stripped text between the first "with"
   * and the next "doc", is not an integer raises ValueError from int(),
   * before any call.
   */
  lemma FnolBadCount(query: string)
    requires KeywordIntent(Lower(query)) == Some(CreateFnol)
    requires Contains(Lower(query), "external ref")
    requires Contains(Strip(AfterFirst(Lower(query), "external ref")), "with")
    requires ParseInt(Strip(BeforeFirst(AfterFirst(Strip(AfterFirst(Lower(query), "external ref")), "with"), "doc"))).None?
    ensures Chat(query) == FnolFailed(BadDocCount)
  {
    var q := Lower(query);
    var parts := Strip(AfterFirst(q, "external ref"));
    FnolArgsAt(q, Find(q, "external ref").value);
    assert FnolFields(parts) == Err(BadDocCount);
    ChatFnol(query);
  }

  /** complete/<id> is the complete route of the tasks service, for the task id. */
  lemma CompletePath(id: string)
    ensures StartsWith("complete/" + id, "complete/") && ("complete/" + id)[9..] == id
    ensures "complete/" + id != "list" && "complete/" + id != "add"
  {
    assert ("complete/" + id)[..9] == "complete/";
    assert ("complete/" + id)[9..] == id;
  }

  /**
   * _tasks picks the method from the payload alone, so "complete task"
   * sends GET to complete/<id>, a path the tasks service serves only to
   * POST: the request is refused with 405 and no task is completed.
   */
  lemma CompleteTaskIsRefused(id: string)
    requires IsWord(id) && Tasks.IsSegment(id)
    ensures Chat("Complete task " + id).TasksCall?
    ensures var route := Chat("Complete task " + id);
            Tasks.RouteTasks(TasksMethod(route.payload), route.path) == Tasks.MethodNotAllowed
  {
    CompleteTaskRoute(id);
    CompletePath(id);
  }

  /** The method the tasks service expects for each path chat uses: POST for add and for complete/<id>. */
  function TasksMethodFor(path: string, payload: Option<Payload>): Method {
    if payload.Some? || StartsWith(path, "complete/") then Post else Get
  }

  /** With the method chosen by path, every tasks call chat makes reaches its handler. */
  lemma TasksCallsAreHandled(query: string)
    requires Chat(query).TasksCall?
    requires IntentOf(Chat(query)) == Some(CompleteTask) ==> |Chat(query).path| >= 9 && Tasks.IsSegment(Chat(query).path[9..])
    ensures var route := Chat(query);
            var routed := Tasks.RouteTasks(TasksMethodFor(route.path, route.payload), route.path);
            && (IntentOf(route) == Some(ListTasks) ==> routed == Tasks.Handled(Tasks.ListTasks))
            && (IntentOf(route) == Some(AddTask) ==> routed == Tasks.Handled(Tasks.AddTask))
            && (IntentOf(route) == Some(CompleteTask) ==> |route.path| >= 9 && routed == Tasks.Handled(Tasks.CompleteTask(route.path[9..])))
  {
    if KeywordIntent(Lower(query)) == Some(CompleteTask) {
      LeadingWord(query, "complete task");
      CompletePath(LastWord(query));
    }
  }

  /** With the method chosen by path, "Complete task <id>" completes task <id>. */
  lemma CompleteTaskIsHandled(id: string)
    requires IsWord(id) && Tasks.IsSegment(id)
    ensures Chat("Complete task " + id).TasksCall?
    ensures var route := Chat("Complete task " + id);
            Tasks.RouteTasks(TasksMethodFor(route.path, route.payload), route.path) == Tasks.Handled(Tasks.CompleteTask(id))
  {
    CompleteTaskRoute(id);
    CompletePath(id);
  }
}
