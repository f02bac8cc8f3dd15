/**
 * The request-body schemas: the page and post create and update schemas
 * (lib/validation/page.ts, yup) and the reset-password and sign-up schemas
 * (ResetPasswordForm.validation.ts and SignUpForm.validation.ts, zod), each
 * read as a parser from a JSON body to a typed input or a list of issues.
 */
module ContentValidation {
  import opened Prelude
  import opened Json
  import opened Strings

  datatype Kind = Page | Post
  datatype Status = Draft | Published

  function KindName(k: Kind): string
  {
    match k
    case Page => "PAGE"
    case Post => "POST"
  }

  function StatusName(s: Status): string
  {
    match s
    case Draft => "DRAFT"
    case Published => "PUBLISHED"
  }

  /** What one field's schema makes of a property: absent, accepted with its cast value, or rejected. */
  datatype Field<T> = Missing | Good(value: T) | Bad

  function OrDefault<T>(f: Field<T>, d: T): (r: T)
    ensures f.Good? ==> r == f.value
    ensures !f.Good? ==> r == d
  {
    if f.Good? then f.value else d
  }

  function OrNone<T>(f: Field<T>): (r: Option<T>)
    ensures f.Good? <==> r.Some?
    ensures f.Good? ==> r.value == f.value
  {
    if f.Good? then Some(f.value) else None
  }

  // ---------------------------------------------------------------------
  // Field schemas (yup)
  // ---------------------------------------------------------------------

  /** `mixed().oneOf(["PAGE", "POST"])`: exactly one of the two strings, no cast. */
  function KindField(v: Json): (r: Field<Kind>)
    ensures r.Missing? <==> v == JUndefined
    ensures r.Good? <==> v == JStr("PAGE") || v == JStr("POST")
    ensures r.Good? ==> v == JStr(KindName(r.value))
  {
    if v == JUndefined then Missing
    else if v == JStr("PAGE") then Good(Page)
    else if v == JStr("POST") then Good(Post)
    else Bad
  }

  /** `mixed().oneOf(["DRAFT", "PUBLISHED"])`. */
  function StatusField(v: Json): (r: Field<Status>)
    ensures r.Missing? <==> v == JUndefined
    ensures r.Good? <==> v == JStr("DRAFT") || v == JStr("PUBLISHED")
    ensures r.Good? ==> v == JStr(StatusName(r.value))
  {
    if v == JUndefined then Missing
    else if v == JStr("DRAFT") then Good(Draft)
    else if v == JStr("PUBLISHED") then Good(Published)
    else Bad
  }

  /**
   * `string()`: a string is kept, a number or boolean is cast to its text,
   * `null` (not nullable), arrays and objects are rejected.
   */
  function TextField(v: Json): (r: Field<string>)
    ensures r.Missing? <==> v == JUndefined
    ensures r.Bad? <==> v.JNull? || v.JArr? || v.JObj?
    ensures v.JStr? ==> r == Good(v.s)
    ensures v.JNum? ==> r == Good(NumberText(v.n))
  {
    match v
    case JUndefined => Missing
    case JStr(s) => Good(s)
    case JNum(n) => Good(NumberText(n))
    case JBool(b) => Good(if b then "true" else "false")
    case _ => Bad
  }

  /** `string().trim().min(1)`: the cast text, trimmed, must not be empty. */
  function TrimmedField(v: Json): (r: Field<string>)
    ensures r.Missing? <==> v == JUndefined
    ensures r.Good? ==> r.value != [] && IsTrimmed(r.value)
    ensures r.Good? <==> TextField(v).Good? && Trim(TextField(v).value) != []
    ensures r.Good? ==> r.value == Trim(TextField(v).value)
  {
    match TextField(v)
    case Missing => Missing
    case Bad => Bad
    case Good(s) => if Trim(s) == [] then Bad else Good(Trim(s))
  }

  /** One element of `tagIds`: `string().trim().required()`, so an absent or blank element is rejected. */
  function TagId(v: Json): (r: Option<string>)
    ensures r.Some? ==> r.value != [] && IsTrimmed(r.value)
    ensures r.Some? <==> TrimmedField(v).Good?
    ensures r.Some? ==> r.value == TrimmedField(v).value
  {
    var f := TrimmedField(v);
    if f.Good? then Some(f.value) else None
  }

  /** Each element mapped by `f`, or None as soon as one element is rejected. */
  function Traverse<A, B>(xs: seq<A>, f: A -> Option<B>): (r: Option<seq<B>>)
    ensures r.Some? <==> forall i :: 0 <= i < |xs| ==> f(xs[i]).Some?
    ensures r.Some? ==> |r.value| == |xs| && forall i :: 0 <= i < |xs| ==> r.value[i] == f(xs[i]).value
  {
    if xs == [] then Some([])
    else
      var rest := Traverse(xs[1..], f);
      assert forall i :: 1 <= i < |xs| ==> xs[i] == xs[1..][i - 1];
      if f(xs[0]).Some? && rest.Some? then Some([f(xs[0]).value] + rest.value) else None
  }

  /** The elements of `tagIds`: all accepted, or the array is rejected. */
  function TagIdItems(items: seq<Json>): (r: Option<seq<string>>)
    ensures r.Some? <==> forall i :: 0 <= i < |items| ==> TagId(items[i]).Some?
    ensures r.Some? ==> |r.value| == |items|
    ensures r.Some? ==> forall i :: 0 <= i < |items| ==> r.value[i] == TagId(items[i]).value
  {
    Traverse(items, TagId)
  }

  /** `array().of(...)`: absent is allowed (the default `[]` is applied by the caller), a non-array is rejected. */
  function TagIdsField(v: Json): (r: Field<seq<string>>)
    ensures r.Missing? <==> v == JUndefined
    ensures r.Good? ==> v.JArr? && TagIdItems(v.items) == Some(r.value)
    ensures r.Good? ==> forall i :: 0 <= i < |r.value| ==> r.value[i] != [] && IsTrimmed(r.value[i])
    ensures v.JArr? && TagIdItems(v.items).Some? ==> r.Good?
  {
    match v
    case JUndefined => Missing
    case JArr(items) => (
      match TagIdItems(items)
      case Some(ids) =>
        assert forall i :: 0 <= i < |ids| ==> TagId(items[i]).Some?;
        Good(ids)
      case None => Bad)
    case _ => Bad
  }

  // ---------------------------------------------------------------------
  // PageSchema
  // ---------------------------------------------------------------------

  /** The validated create body. */
  datatype PageInput = PageInput(
    kind: Kind, status: Status, slug: string, title: string,
    excerpt: string, content: string, tagIds: seq<string>)

  /** What every accepted create body satisfies. */
  predicate WellFormedInput(x: PageInput)
  {
    x.slug != [] && IsTrimmed(x.slug) && x.title != [] && IsTrimmed(x.title)
    && forall i :: 0 <= i < |x.tagIds| ==> x.tagIds[i] != [] && IsTrimmed(x.tagIds[i])
  }

  /** The field names that fail, in schema order, when the present-or-absent fields are given. */
  function Issues(kind: bool, status: bool, slug: bool, title: bool, excerpt: bool, content: bool, tagIds: bool): (r: seq<string>)
    ensures r == [] <==> kind && status && slug && title && excerpt && content && tagIds
    ensures "slug" in r ==> !slug
    ensures !slug ==> "slug" in r
  {
    (if kind then [] else ["type"]) + (if status then [] else ["status"])
    + (if slug then [] else ["slug"]) + (if title then [] else ["title"])
    + (if excerpt then [] else ["excerpt"]) + (if content then [] else ["content"])
    + (if tagIds then [] else ["tagIds"])
  }

  /** The create body from its seven field results: every required field present and every field accepted. */
  function CreateFrom(kind: Field<Kind>, status: Field<Status>, slug: Field<string>, title: Field<string>,
                      excerpt: Field<string>, content: Field<string>, tagIds: Field<seq<string>>): (r: Outcome<PageInput, seq<string>>)
    ensures r.Fail? ==> r.error != [] && ("slug" in r.error <==> !slug.Good?)
    ensures r.Ok? <==> kind.Good? && status.Good? && slug.Good? && title.Good? && !excerpt.Bad? && !content.Bad? && !tagIds.Bad?
    ensures r.Ok? ==> r.value == PageInput(kind.value, status.value, slug.value, title.value,
      OrDefault(excerpt, []), OrDefault(content, []), OrDefault(tagIds, []))
  {
    var issues := Issues(kind.Good?, status.Good?, slug.Good?, title.Good?, !excerpt.Bad?, !content.Bad?, !tagIds.Bad?);
    if issues == [] then
      Ok(PageInput(kind.value, status.value, slug.value, title.value,
        OrDefault(excerpt, []), OrDefault(content, []), OrDefault(tagIds, [])))
    else Fail(issues)
  }

  /**
   * `PageSchema.validate(body, { abortEarly: false, stripUnknown: true })`:
   * type, status, slug and title are required; excerpt and content default
   * to `""` and tagIds to `[]`; unknown keys are dropped. A body that is not
   * an object fails at the root (the path `""`).
   */
  function ParsePage(raw: Json): (r: Outcome<PageInput, seq<string>>)
    ensures r.Fail? ==> r.error != []
    ensures r.Ok? <==> (raw.JObj? && KindField(Get(raw, "type")).Good? && StatusField(Get(raw, "status")).Good?
      && TrimmedField(Get(raw, "slug")).Good? && TrimmedField(Get(raw, "title")).Good?
      && !TextField(Get(raw, "excerpt")).Bad? && !TextField(Get(raw, "content")).Bad?
      && !TagIdsField(Get(raw, "tagIds")).Bad?)
    ensures r.Ok? ==> WellFormedInput(r.value)
    ensures r.Ok? ==> (Get(raw, "type") == JStr(KindName(r.value.kind))
      && Get(raw, "status") == JStr(StatusName(r.value.status)))
    ensures r.Ok? && Get(raw, "excerpt") == JUndefined ==> r.value.excerpt == []
    ensures r.Ok? && Get(raw, "content") == JUndefined ==> r.value.content == []
    ensures r.Ok? && Get(raw, "tagIds") == JUndefined ==> r.value.tagIds == []
    ensures raw.JObj? && r.Fail? ==> ("slug" in r.error <==> !TrimmedField(Get(raw, "slug")).Good?)
  {
    if !raw.JObj? then Fail([""])
    else
      CreateFrom(KindField(Get(raw, "type")), StatusField(Get(raw, "status")),
        TrimmedField(Get(raw, "slug")), TrimmedField(Get(raw, "title")),
        TextField(Get(raw, "excerpt")), TextField(Get(raw, "content")), TagIdsField(Get(raw, "tagIds")))
  }

  /** A non-empty trimmed string passes `string().trim().min(1)` as itself. */
  lemma TrimmedFieldOfTrimmed(t: string)
    requires t != [] && IsTrimmed(t)
    ensures TrimmedField(JStr(t)) == Good(t)
  {
    TrimOfTrimmed(t);
  }

  /** A list of non-empty trimmed ids passes the `tagIds` schema as itself. */
  lemma TagIdsFieldOfIds(ids: seq<string>)
    requires forall i :: 0 <= i < |ids| ==> ids[i] != [] && IsTrimmed(ids[i])
    ensures TagIdsField(JArr(Strs(ids))) == Good(ids)
  {
    var items := Strs(ids);
    forall i | 0 <= i < |items|
      ensures TagId(items[i]) == Some(ids[i])
    {
      assert items[i] == JStr(ids[i]);
      TrimmedFieldOfTrimmed(ids[i]);
    }
    var r := TagIdItems(items);
    assert r.Some?;
    assert r.value == ids by {
      assert |r.value| == |ids|;
      forall i | 0 <= i < |ids|
        ensures r.value[i] == ids[i]
      {
        assert r.value[i] == TagId(items[i]).value;
      }
    }
  }

  /** Each kind's name is accepted as that kind. */
  lemma KindFieldOfName(kind: Kind)
    ensures KindField(JStr(KindName(kind))) == Good(kind)
  {
    match kind
    case Page =>
    case Post =>
  }

  /** Each status's name is accepted as that status. */
  lemma StatusFieldOfName(status: Status)
    ensures StatusField(JStr(StatusName(status))) == Good(status)
  {
    match status
    case Draft =>
    case Published =>
  }

  /** Any string passes `string()` as itself. */
  lemma TextFieldOfText(t: string)
    ensures TextField(JStr(t)) == Good(t)
  {
  }

  /** Seven accepted fields make the body they spell out. */
  lemma CreateFromGood(kind: Kind, status: Status, slug: string, title: string, excerpt: string, content: string, tagIds: seq<string>)
    ensures CreateFrom(Good(kind), Good(status), Good(slug), Good(title), Good(excerpt), Good(content), Good(tagIds))
      == Ok(PageInput(kind, status, slug, title, excerpt, content, tagIds))
  {
  }

  /** Field values that spell out a well-formed input are accepted as that input. */
  lemma FieldsAccepted(kind: Json, status: Json, slug: Json, title: Json, excerpt: Json, content: Json, tagIds: Json, x: PageInput)
    requires WellFormedInput(x)
    requires kind == JStr(KindName(x.kind)) && status == JStr(StatusName(x.status))
    requires slug == JStr(x.slug) && title == JStr(x.title)
    requires excerpt == JStr(x.excerpt) && content == JStr(x.content) && tagIds == JArr(Strs(x.tagIds))
    ensures CreateFrom(KindField(kind), StatusField(status), TrimmedField(slug), TrimmedField(title),
      TextField(excerpt), TextField(content), TagIdsField(tagIds)) == Ok(x)
  {
    assert TrimmedField(slug) == Good(x.slug) by {
      TrimmedFieldOfTrimmed(x.slug);
    }
    assert TrimmedField(title) == Good(x.title) by {
      TrimmedFieldOfTrimmed(x.title);
    }
    assert TagIdsField(tagIds) == Good(x.tagIds) by {
      TagIdsFieldOfIds(x.tagIds);
    }
    KindFieldOfName(x.kind);
    StatusFieldOfName(x.status);
    TextFieldOfText(x.excerpt);
    TextFieldOfText(x.content);
    CreateFromGood(x.kind, x.status, x.slug, x.title, x.excerpt, x.content, x.tagIds);
  }

  /** Every well-formed input is accepted, exactly, from any body that carries its fields. */
  lemma ParsePageComplete(raw: Json, x: PageInput)
    requires raw.JObj? && WellFormedInput(x)
    requires Get(raw, "type") == JStr(KindName(x.kind)) && Get(raw, "status") == JStr(StatusName(x.status))
    requires Get(raw, "slug") == JStr(x.slug) && Get(raw, "title") == JStr(x.title)
    requires Get(raw, "excerpt") == JStr(x.excerpt) && Get(raw, "content") == JStr(x.content)
    requires Get(raw, "tagIds") == JArr(Strs(x.tagIds))
    ensures ParsePage(raw) == Ok(x)
  {
    FieldsAccepted(Get(raw, "type"), Get(raw, "status"), Get(raw, "slug"), Get(raw, "title"),
      Get(raw, "excerpt"), Get(raw, "content"), Get(raw, "tagIds"), x);
  }

  /** Surrounding spaces in slug and title are trimmed away, not rejected. */
  lemma ParsePageTrims(raw: Json)
    requires ParsePage(raw).Ok? && Get(raw, "slug").JStr? && Get(raw, "title").JStr?
    ensures ParsePage(raw).value.slug == Trim(Get(raw, "slug").s)
    ensures ParsePage(raw).value.title == Trim(Get(raw, "title").s)
  {
  }

  // ---------------------------------------------------------------------
  // PageUpdateSchema
  // ---------------------------------------------------------------------

  /** The validated update body: every field optional, tagIds defaulting to `[]`. */
  datatype PageUpdate = PageUpdate(
    kind: Option<Kind>, status: Option<Status>, slug: Option<string>, title: Option<string>,
    excerpt: Option<string>, content: Option<string>, tagIds: seq<string>)

  /** `PageUpdateSchema.validate(body, ...)`: the create schema's field rules, each field optional. */
  function ParseUpdate(raw: Json): (r: Outcome<PageUpdate, seq<string>>)
    ensures r.Fail? ==> r.error != []
    ensures r.Ok? <==> (raw.JObj? && !KindField(Get(raw, "type")).Bad? && !StatusField(Get(raw, "status")).Bad?
      && !TrimmedField(Get(raw, "slug")).Bad? && !TrimmedField(Get(raw, "title")).Bad?
      && !TextField(Get(raw, "excerpt")).Bad? && !TextField(Get(raw, "content")).Bad?
      && !TagIdsField(Get(raw, "tagIds")).Bad?)
    ensures r.Ok? ==> ((r.value.slug.Some? <==> Get(raw, "slug") != JUndefined)
      && (r.value.title.Some? <==> Get(raw, "title") != JUndefined))
    ensures r.Ok? && r.value.slug.Some? ==> r.value.slug.value != [] && IsTrimmed(r.value.slug.value)
    ensures r.Ok? && r.value.title.Some? ==> r.value.title.value != [] && IsTrimmed(r.value.title.value)
    ensures r.Ok? ==> forall i :: 0 <= i < |r.value.tagIds| ==> r.value.tagIds[i] != [] && IsTrimmed(r.value.tagIds[i])
    ensures r.Ok? && Get(raw, "tagIds") == JUndefined ==> r.value.tagIds == []
  {
    if !raw.JObj? then Fail([""])
    else
      var kind := KindField(Get(raw, "type"));
      var status := StatusField(Get(raw, "status"));
      var slug := TrimmedField(Get(raw, "slug"));
      var title := TrimmedField(Get(raw, "title"));
      var excerpt := TextField(Get(raw, "excerpt"));
      var content := TextField(Get(raw, "content"));
      var tagIds := TagIdsField(Get(raw, "tagIds"));
      var issues := Issues(!kind.Bad?, !status.Bad?, !slug.Bad?, !title.Bad?, !excerpt.Bad?, !content.Bad?, !tagIds.Bad?);
      if issues == [] then
        Ok(PageUpdate(OrNone(kind), OrNone(status), OrNone(slug), OrNone(title),
          OrNone(excerpt), OrNone(content), OrDefault(tagIds, [])))
      else Fail(issues)
  }

  /** A body the create schema accepts is an update that sets every field to the same values. */
  lemma CreateBodyIsUpdate(raw: Json)
    requires ParsePage(raw).Ok?
    ensures ParseUpdate(raw).Ok?
    ensures var x := ParsePage(raw).value; var u := ParseUpdate(raw).value;
      u.kind == Some(x.kind) && u.status == Some(x.status) && u.slug == Some(x.slug)
      && u.title == Some(x.title) && u.tagIds == x.tagIds
      && (u.excerpt.Some? ==> u.excerpt.value == x.excerpt) && (u.content.Some? ==> u.content.value == x.content)
  {
  }

  /** The empty object is a valid update that changes nothing but clears the tags. */
  lemma EmptyUpdate()
    ensures ParseUpdate(JObj([])) == Ok(PageUpdate(None, None, None, None, None, None, []))
  {
  }

  // ---------------------------------------------------------------------
  // resetPasswordSchema and signUpSchema (zod)
  // ---------------------------------------------------------------------

  /** One zod issue: the field's path and the message. */
  datatype Issue = Issue(path: string, message: string)

  const PasswordTooShort := "Password must be at least 8 characters"
  const PasswordsDiffer := "Passwords do not match"
  /** zod's own wording for a value of the wrong type is not modelled; this stands for it. */
  const InvalidInput := "Invalid input"

  /** `z.string().min(n, message)`: a non-string is a type issue, which stops the object's refinements. */
  function MinString(path: string, v: Json, n: nat, message: string): (r: seq<Issue>)
    ensures v.JStr? && |v.s| >= n <==> r == []
    ensures !v.JStr? ==> r == [Issue(path, InvalidInput)]
    ensures v.JStr? && |v.s| < n ==> r == [Issue(path, message)]
  {
    if !v.JStr? then [Issue(path, InvalidInput)]
    else if |v.s| < n then [Issue(path, message)]
    else []
  }

  datatype ResetInput = ResetInput(token: string, password: string)

  /**
   * `resetPasswordSchema.safeParse(body)`: token non-empty, password and
   * confirm at least 8 characters; the refinement that the two agree runs
   * whenever all three are strings (length issues do not stop it) and
   * reports on `confirm`.
   */
  function ParseResetPassword(raw: Json): (r: Outcome<ResetInput, seq<Issue>>)
    ensures r.Fail? ==> r.error != []
    ensures r.Ok? <==> (raw.JObj? && Get(raw, "token").JStr? && Get(raw, "token").s != []
      && Get(raw, "password").JStr? && |Get(raw, "password").s| >= 8
      && Get(raw, "confirm") == Get(raw, "password"))
    ensures r.Ok? ==> r.value == ResetInput(Get(raw, "token").s, Get(raw, "password").s)
    ensures r.Fail? && raw.JObj? ==>
      (Issue("confirm", PasswordsDiffer) in r.error <==>
        Get(raw, "token").JStr? && Get(raw, "password").JStr? && Get(raw, "confirm").JStr?
        && Get(raw, "password") != Get(raw, "confirm"))
  {
    if !raw.JObj? then Fail([Issue("", InvalidInput)])
    else
      var token := Get(raw, "token");
      var password := Get(raw, "password");
      var confirm := Get(raw, "confirm");
      var fieldIssues := MinString("token", token, 1, "Missing token")
        + MinString("password", password, 8, PasswordTooShort)
        + MinString("confirm", confirm, 8, PasswordTooShort);
      assert Issue("confirm", PasswordsDiffer) !in fieldIssues by {
        assert "Missing token" != PasswordsDiffer && PasswordTooShort != PasswordsDiffer && InvalidInput != PasswordsDiffer by {
          assert "Missing token"[0] != PasswordsDiffer[0] && PasswordTooShort[8] != PasswordsDiffer[8];
          assert InvalidInput[0] != PasswordsDiffer[0];
        }
      }
      var refined := token.JStr? && password.JStr? && confirm.JStr? && password.s != confirm.s;
      var issues := fieldIssues + (if refined then [Issue("confirm", PasswordsDiffer)] else []);
      if issues == [] then Ok(ResetInput(token.s, password.s)) else Fail(issues)
  }

  /** Two strings that differ always fail on `confirm`, whatever their lengths. */
  lemma ResetMismatch(raw: Json)
    requires raw.JObj? && Get(raw, "token").JStr?
    requires Get(raw, "password").JStr? && Get(raw, "confirm").JStr? && Get(raw, "password") != Get(raw, "confirm")
    ensures ParseResetPassword(raw).Fail?
    ensures Issue("confirm", PasswordsDiffer) in ParseResetPassword(raw).error
  {
  }

  datatype SignUpInput = SignUpInput(name: Option<string>, email: string, password: string)

  /** The `name` field: absent, `""`, or a string of 2 to 64 characters. */
  predicate NameAccepted(v: Json)
  {
    v == JUndefined || (v.JStr? && (v.s == [] || 2 <= |v.s| <= 64))
  }

  /**
   * `signUpSchema.safeParse(body)`. `isEmail` stands for zod's own email
   * check, which is not part of this model.
   */
  function ParseSignUp(raw: Json, isEmail: string -> bool): (r: Outcome<SignUpInput, seq<Issue>>)
    ensures r.Fail? ==> r.error != []
    ensures r.Ok? <==> (raw.JObj? && NameAccepted(Get(raw, "name"))
      && Get(raw, "email").JStr? && isEmail(Get(raw, "email").s)
      && Get(raw, "password").JStr? && |Get(raw, "password").s| >= 8)
    ensures r.Ok? ==> r.value.email == Get(raw, "email").s && r.value.password == Get(raw, "password").s
    ensures r.Ok? ==> (r.value.name.None? <==> Get(raw, "name") == JUndefined)
    ensures r.Ok? && r.value.name.Some? ==> r.value.name.value == [] || 2 <= |r.value.name.value| <= 64
  {
    if !raw.JObj? then Fail([Issue("", InvalidInput)])
    else
      var name := Get(raw, "name");
      var email := Get(raw, "email");
      var password := Get(raw, "password");
      var issues := (if NameAccepted(name) then [] else [Issue("name", InvalidInput)])
        + (if email.JStr? && isEmail(email.s) then [] else [Issue("email", "Invalid email")])
        + MinString("password", password, 8, PasswordTooShort);
      if issues == [] then
        Ok(SignUpInput(if name == JUndefined then None else Some(name.s), email.s, password.s))
      else Fail(issues)
  }
}
