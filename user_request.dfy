/** `UserRequest::rules`: the validation map of the user form, built by
    conditional insertions and then a pass that appends the content filter to
    every entry. */
module UserRequest {
  import opened Php
  import opened Roles

  /** The rules the map uses, each as Laravel spells it. */
  datatype Rule =
    | Required
    | Nullable
    | StringType
    | Email
    | Boolean
    | Date
    | Image
    | Max(n: int)
    | Min(n: int)
    | In(values: seq<string>)
    | Mimes(types: seq<string>)
    | BeforeOrEqual(date: string)
    | Unique(table: string, ignore: Option<string>)
    | NoMaliciousContent

  type RuleMap = map<string, seq<Rule>>

  /** What `rules()` reads from the request: the route id, whether a password
      is filled, whether an avatar file is uploaded, and the submitted role. */
  datatype Request = Request(routeId: Option<string>, passwordFilled: bool, avatarIsFile: bool, role: Scalar)

  const ROLE_VALUES: seq<string> := [SUPORTE, SINDICO, MORADOR, SUB_SINDICO, FUNCIONARIO]
  const EMPLOYEE_STATUSES: seq<string> := ["ativo", "ferias", "licenca", "afastado", "desligado", "suspenso"]
  const EMPLOYEE_KEYS: set<string> :=
    {"employee.occupation", "employee.admission_date", "employee.employee_description", "employee.status"}

  /** `if ($userId)`: the route carries a (truthy) id, so the form updates. */
  predicate IsUpdate(req: Request)
  {
    req.routeId.Some? && TruthyString(req.routeId.value)
  }

  /** The fifteen entries every form gets. */
  function BaseRules(userId: Option<string>): RuleMap
  {
    map[
      "name" := [Required, StringType, Max(255)],
      "last_name" := [Required, StringType, Max(255)],
      "email" := [Required, Email, Max(255), Unique("users", userId)],
      "role" := [Required, In(ROLE_VALUES)],
      "account_status" := [Boolean],
      "description" := [Nullable, StringType],
      "phone" := [Required, StringType, Max(100)],
      "date_of_birth" := [Nullable, Date, BeforeOrEqual("today")],
      "address" := [Nullable, StringType, Max(255)],
      "complement" := [Nullable, StringType, Max(255)],
      "city" := [Nullable, StringType, Max(100)],
      "zip_code" := [Nullable, StringType, Max(20)],
      "state" := [Nullable, StringType, Max(100)],
      "country" := [Nullable, StringType, Max(100)],
      "accepts_emails" := [Boolean]
    ]
  }

  const OCCUPATION_RULES: seq<Rule> := [Required, StringType, Max(255)]
  const ADMISSION_RULES: seq<Rule> := [Required, Date, BeforeOrEqual("today")]
  const EMPLOYEE_DESCRIPTION_RULES: seq<Rule> := [Nullable, StringType, Max(1000)]
  const EMPLOYEE_STATUS_RULES: seq<Rule> := [Required, In(EMPLOYEE_STATUSES)]

  /** The four `employee.*` entries added for a funcionario. */
  function WithEmployee(m: RuleMap): RuleMap
  {
    m["employee.occupation" := OCCUPATION_RULES]
     ["employee.admission_date" := ADMISSION_RULES]
     ["employee.employee_description" := EMPLOYEE_DESCRIPTION_RULES]
     ["employee.status" := EMPLOYEE_STATUS_RULES]
  }

  const CREATE_PASSWORD: seq<Rule> := [Required, StringType, Min(8)]
  const UPDATE_PASSWORD: seq<Rule> := [StringType, Min(8)]

  const IMAGE_AVATAR: seq<Rule> := [Nullable, Image, Mimes(["jpeg", "jpg", "png"]), Max(2048)]
  const STRING_AVATAR: seq<Rule> := [Nullable, StringType, Max(100)]

  /** The map after the conditional insertions, before the filter is appended. */
  function Unmarked(req: Request): RuleMap
  {
    var base := BaseRules(req.routeId);
    var withPassword :=
      if IsUpdate(req) then
        (if req.passwordFilled then base["password" := UPDATE_PASSWORD] else base)
      else base["password" := CREATE_PASSWORD];
    var withAvatar := withPassword["avatar" := if req.avatarIsFile then IMAGE_AVATAR else STRING_AVATAR];
    if req.role == Str(FUNCIONARIO) then WithEmployee(withAvatar) else withAvatar
  }

  /** The map `rules()` returns: every entry of `Unmarked` with the filter
      appended. */
  function Marked(req: Request): RuleMap
  {
    WithFilter(Unmarked(req))
  }

  function WithFilter(m: RuleMap): RuleMap
  {
    map k | k in m :: m[k] + [NoMaliciousContent]
  }

  /** The conditional insertions of `rules()`. */
  method InsertRules(req: Request) returns (rules: RuleMap)
    ensures rules == Unmarked(req)
  {
    rules := BaseRules(req.routeId);
    if IsUpdate(req) {
      if req.passwordFilled {
        rules := rules["password" := UPDATE_PASSWORD];
      }
    } else {
      rules := rules["password" := CREATE_PASSWORD];
    }
    if req.avatarIsFile {
      rules := rules["avatar" := IMAGE_AVATAR];
    } else {
      rules := rules["avatar" := STRING_AVATAR];
    }
    if req.role == Str(FUNCIONARIO) {
      rules := rules["employee.occupation" := OCCUPATION_RULES];
      rules := rules["employee.admission_date" := ADMISSION_RULES];
      rules := rules["employee.employee_description" := EMPLOYEE_DESCRIPTION_RULES];
      rules := rules["employee.status" := EMPLOYEE_STATUS_RULES];
    }
  }

  /** The by-reference pass that appends the filter to every entry (each entry
      is an array, so each gets it). */
  method AppendFilter(unmarked: RuleMap) returns (rules: RuleMap)
    ensures rules == WithFilter(unmarked)
  {
    rules := unmarked;
    var pending := rules.Keys;
    while exists k :: k in pending
      invariant pending <= unmarked.Keys
      invariant rules.Keys == unmarked.Keys
      invariant forall k :: k in rules ==>
        rules[k] == if k in pending then unmarked[k] else unmarked[k] + [NoMaliciousContent]
      decreases pending
    {
      var field :| field in pending;
      pending := pending - {field};
      rules := rules[field := rules[field] + [NoMaliciousContent]];
    }
    assert forall k :: k !in pending;
    assert forall k :: k in rules ==> rules[k] == WithFilter(unmarked)[k];
  }

  /** `rules()`. */
  method Rules(req: Request) returns (rules: RuleMap)
    ensures rules == Marked(req)
  {
    var unmarked := InsertRules(req);
    rules := AppendFilter(unmarked);
  }

  // ---------------------------------------------------------------------------
  // What the map promises
  // ---------------------------------------------------------------------------

  /** A value passes every `in:` rule of the list. */
  predicate Admits(rules: seq<Rule>, v: string)
  {
    forall i :: 0 <= i < |rules| && rules[i].In? ==> v in rules[i].values
  }

  /** The role field is required and takes exactly the five role names. */
  lemma RoleIsRestricted(req: Request, v: string)
    ensures "role" in Marked(req) && Required in Marked(req)["role"]
    ensures Admits(Marked(req)["role"], v) <==>
      v == SUPORTE || v == SINDICO || v == MORADOR || v == SUB_SINDICO || v == FUNCIONARIO
  {
    var r := Marked(req)["role"];
    assert r == [Required, In(ROLE_VALUES), NoMaliciousContent];
    assert r[1].In?;
    if Admits(r, v) {
      assert v in ROLE_VALUES;
    }
  }

  /** Creating a user: the password is required, a string of at least eight
      characters. */
  lemma PasswordRequiredOnCreate(req: Request)
    requires !IsUpdate(req)
    ensures "password" in Marked(req)
    ensures Marked(req)["password"] == [Required, StringType, Min(8), NoMaliciousContent]
  {
  }

  /** Updating a user: a password rule exists exactly when a password is
      filled, and then it is optional. */
  lemma PasswordOnUpdate(req: Request)
    requires IsUpdate(req)
    ensures "password" in Marked(req) <==> req.passwordFilled
    ensures req.passwordFilled ==> Marked(req)["password"] == [StringType, Min(8), NoMaliciousContent]
  {
    assert "password" !in BaseRules(req.routeId);
  }

  /** The avatar rule is the image variant exactly when a file is uploaded. */
  lemma AvatarVariant(req: Request)
    ensures "avatar" in Marked(req)
    ensures Image in Marked(req)["avatar"] <==> req.avatarIsFile
    ensures !req.avatarIsFile ==> StringType in Marked(req)["avatar"]
  {
    if !req.avatarIsFile {
      assert Marked(req)["avatar"] == STRING_AVATAR + [NoMaliciousContent];
    }
  }

  /** The `employee.*` entries are present exactly when the submitted role is the
      string "funcionario". */
  lemma EmployeeRulesIffFuncionario(req: Request, k: string)
    requires k in EMPLOYEE_KEYS
    ensures k in Marked(req) <==> req.role == Str(FUNCIONARIO)
  {
    assert k !in BaseRules(req.routeId);
    assert k != "password" && k != "avatar";
  }

  /** The employee status takes one of the six statuses. */
  lemma EmployeeStatusIsRestricted(req: Request, v: string)
    requires req.role == Str(FUNCIONARIO)
    ensures "employee.status" in Marked(req)
    ensures Admits(Marked(req)["employee.status"], v) <==> v in EMPLOYEE_STATUSES
  {
    var r := Marked(req)["employee.status"];
    assert r == [Required, In(EMPLOYEE_STATUSES), NoMaliciousContent];
    assert r[1].In?;
  }

  /** The rule lists before the pass hold no filter. */
  lemma UnmarkedHasNoFilter(req: Request, k: string)
    requires k in Unmarked(req)
    ensures NoMaliciousContent !in Unmarked(req)[k]
  {
  }

  /** Every entry ends with the filter, and holds it exactly once. */
  lemma FilterAppendedOnce(req: Request, k: string)
    requires k in Marked(req)
    ensures var l := Marked(req)[k];
      |l| >= 1 && l[|l| - 1] == NoMaliciousContent &&
      multiset(l)[NoMaliciousContent] == 1
  {
    var u := Unmarked(req)[k];
    UnmarkedHasNoFilter(req, k);
    assert multiset(u)[NoMaliciousContent] == 0;
    assert multiset(u + [NoMaliciousContent]) == multiset(u) + multiset{NoMaliciousContent};
  }

  /** The user form never validates a `permissions` field, so the validated data
      never carries one. */
  lemma NoPermissionsRule(req: Request)
    ensures "permissions" !in Marked(req)
  {
  }
}
