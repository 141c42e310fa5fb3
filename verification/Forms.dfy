/** Slugs of application forms in backend/src/handlers/applicationHandler.ts: how they are made
    from a title, and that no two forms ever share one. */
module Forms {
  import opened Text
  import opened Finite
  import opened Numbers

  // ---------------------------------------------------------------- slugify

  predicate Alnum(c: char) { 'a' <= c <= 'z' || '0' <= c <= '9' }

  /** Only lower-case letters, digits, white space and hyphens stay. */
  function Filtered(s: string): (r: string)
    ensures forall c | c in r :: Alnum(c) || JsSpace(c) || c == '-'
  {
    if s == "" then ""
    else (if Alnum(s[0]) || JsSpace(s[0]) || s[0] == '-' then [s[0]] else []) + Filtered(s[1..])
  }

  /** Every run of hyphens becomes one hyphen. */
  function Collapsed(s: string): (r: string)
    ensures forall c | c in r :: c in s
    ensures forall i | 0 <= i < |r| - 1 :: r[i] != '-' || r[i + 1] != '-'
    ensures r == "" <==> s == ""
    ensures s != "" ==> r[0] == s[0]
  {
    if s == "" then ""
    else if s[0] == '-' && |s| > 1 && s[1] == '-' then Collapsed(s[1..])
    else [s[0]] + Collapsed(s[1..])
  }

  /** Without a hyphen at the start or the end. */
  function Stripped(s: string): string {
    var a := if s != "" && s[0] == '-' then s[1..] else s;
    if a != "" && a[|a| - 1] == '-' then a[..|a| - 1] else a
  }

  function Base(input: string): string { Stripped(Collapsed(Dashed(Filtered(JsTrim(Lower(input)))))) }

  function Slugify(input: string): string {
    if Base(input) == "" then "form" else Base(input)
  }

  /** Groups of letters and digits with single hyphens between them. */
  predicate SlugForm(s: string) {
    && s != ""
    && (forall i | 0 <= i < |s| :: Alnum(s[i]) || s[i] == '-')
    && (forall i | 0 <= i < |s| - 1 :: s[i] != '-' || s[i + 1] != '-')
    && s[0] != '-' && s[|s| - 1] != '-'
  }

  lemma {:induction false} DashedChars(s: string)
    requires forall c | c in s :: Alnum(c) || JsSpace(c) || c == '-'
    ensures forall c | c in Dashed(s) :: Alnum(c) || c == '-'
  {
    if s != "" {
      assert s[0] in s && forall c | c in s[1..] :: c in s;
      DashedChars(s[1..]);
    }
  }

  lemma {:induction false} DashedKeeps(s: string)
    requires forall i | 0 <= i < |s| :: !JsSpace(s[i])
    ensures Dashed(s) == s
  {
    if s != "" {
      DashedKeeps(s[1..]);
      assert s == [s[0]] + s[1..];
    }
  }

  lemma {:induction false} FilteredKeeps(s: string)
    requires forall i | 0 <= i < |s| :: Alnum(s[i]) || s[i] == '-'
    ensures Filtered(s) == s
  {
    if s != "" {
      FilteredKeeps(s[1..]);
      assert s == [s[0]] + s[1..];
    }
  }

  lemma {:induction false} CollapsedKeeps(s: string)
    requires forall i | 0 <= i < |s| - 1 :: s[i] != '-' || s[i + 1] != '-'
    ensures Collapsed(s) == s
  {
    if s != "" {
      CollapsedKeeps(s[1..]);
      assert s == [s[0]] + s[1..];
    }
  }

  /** Every slug has the form, whatever the input. */
  lemma SlugifyForm(input: string)
    ensures SlugForm(Slugify(input))
  {
    hide Filtered, Dashed, Collapsed, Lower, JsTrim, Stripped, Alnum, JsSpace;
    var filtered := Filtered(JsTrim(Lower(input)));
    var dashed := Dashed(filtered);
    DashedChars(filtered);
    var c := Collapsed(dashed);
    assert forall i | 0 <= i < |c| :: c[i] in c;
    StrippedForm(c);
    FormIsSlug();
  }

  lemma FormIsSlug()
    ensures SlugForm("form")
  {
  }

  lemma StrippedForm(c: string)
    requires forall i | 0 <= i < |c| :: Alnum(c[i]) || c[i] == '-'
    requires forall i | 0 <= i < |c| - 1 :: c[i] != '-' || c[i + 1] != '-'
    ensures Stripped(c) == "" || SlugForm(Stripped(c))
  {
  }

  /** And a string of that form is its own slug: slugify is idempotent, and its results are
      exactly the strings of the form. */
  lemma SlugifyFixes(s: string)
    ensures Slugify(s) == s <==> SlugForm(s)
    ensures Slugify(Slugify(s)) == Slugify(s)
  {
    SlugifyForm(s);
    if SlugForm(s) { FixedPoint(s); }
    FixedPoint(Slugify(s));
  }

  lemma FixedPoint(s: string)
    requires SlugForm(s)
    ensures Slugify(s) == s
  {
    hide Lower, JsTrim, Filtered, Dashed, Collapsed, Alnum, JsSpace;
    SlugLower(s);
    SlugTrim(s);
    FilteredKeeps(s);
    SlugNoSpace(s);
    DashedKeeps(s);
    CollapsedKeeps(s);
  }

  lemma SlugTrim(s: string)
    requires SlugForm(s)
    ensures JsTrim(s) == s
  {
    SlugNoSpace(s);
    hide Alnum, JsSpace;
    assert JsTrimLeft(s) == s;
  }

  lemma SlugNoSpace(s: string)
    requires SlugForm(s)
    ensures forall i | 0 <= i < |s| :: !JsSpace(s[i])
  {
  }

  lemma SlugLower(s: string)
    requires SlugForm(s)
    ensures Lower(s) == s
  {
  }

  // ---------------------------------------------------------------- candidates

  function Cut(s: string, n: nat): string { if |s| <= n then s else s[..n] }

  const TRIES := 1000

  function Root(preferred: string): string { Cut(Slugify(preferred), 90) }

  function Candidate(root: string, i: nat): string {
    if i == 0 then root else root + "-" + Decimal(i + 1)
  }

  lemma CandidatesDiffer(root: string, i: nat, j: nat)
    requires i < j
    ensures Candidate(root, i) != Candidate(root, j)
  {
    hide Decimal;
    if i > 0 {
      DecimalValue(i + 1);
      DecimalValue(j + 1);
      var a, b := Candidate(root, i), Candidate(root, j);
      assert a[|root| + 1..] == Decimal(i + 1) && b[|root| + 1..] == Decimal(j + 1);
    } else {
      assert |Candidate(root, j)| > |root|;
    }
  }

  // ---------------------------------------------------------------- free slugs

  datatype Form = Form(title: string, slug: Option<string>)

  type Table = map<nat, Form>

  /** No form but `ex` has this slug. */
  predicate Free(forms: Table, slug: string, ex: Option<nat>) {
    forall id | id in forms :: forms[id].slug == Some(slug) ==> ex == Some(id)
  }

  function Others(forms: Table, ex: Option<nat>): set<nat> {
    if ex.Some? then forms.Keys - {ex.value} else forms.Keys
  }

  function FirstFree(forms: Table, root: string, ex: Option<nat>, i: nat, now: string): string
    requires i <= TRIES
    decreases TRIES - i
  {
    if i == TRIES then root + "-" + now
    else if Free(forms, Candidate(root, i), ex) then Candidate(root, i)
    else FirstFree(forms, root, ex, i + 1, now)
  }

  function UniqueSlug(forms: Table, preferred: string, ex: Option<nat>, now: string): string {
    FirstFree(forms, Root(preferred), ex, 0, now)
  }

  /** A form other than `ex` that has this slug. */
  ghost function Holder(forms: Table, slug: string, ex: Option<nat>): (id: nat)
    requires !Free(forms, slug, ex)
    ensures id in Others(forms, ex) && forms[id].slug == Some(slug)
  {
    var id :| id in forms && forms[id].slug == Some(slug) && ex != Some(id);
    id
  }

  /** The forms that hold the first `n` candidates. */
  ghost function Holders(forms: Table, root: string, ex: Option<nat>, n: nat): (r: seq<nat>)
    requires forall i | 0 <= i < n :: !Free(forms, Candidate(root, i), ex)
    ensures |r| == n
    ensures forall i | 0 <= i < n :: r[i] in Others(forms, ex) && forms[r[i]].slug == Some(Candidate(root, i))
  {
    if n == 0 then [] else Holders(forms, root, ex, n - 1) + [Holder(forms, Candidate(root, n - 1), ex)]
  }

  /** Pigeonhole: fewer than a thousand other forms cannot hold a thousand different slugs. */
  lemma SomeCandidateFree(forms: Table, root: string, ex: Option<nat>)
    requires |Others(forms, ex)| < TRIES
    ensures exists i :: 0 <= i < TRIES && Free(forms, Candidate(root, i), ex)
  {
    hide Candidate, Free, Others, Holders;
    if forall i | 0 <= i < TRIES :: !Free(forms, Candidate(root, i), ex) {
      var ids := Holders(forms, root, ex, TRIES);
      forall i, j | 0 <= i < j < |ids| ensures ids[i] != ids[j] { CandidatesDiffer(root, i, j); }
      ElementsSize(ids);
      SubsetSize(Elements(ids), Others(forms, ex));
    }
  }

  lemma {:induction false} FirstFreeFinds(forms: Table, root: string, ex: Option<nat>, i: nat, k: nat, now: string)
    requires i <= k < TRIES && Free(forms, Candidate(root, k), ex)
    ensures Free(forms, FirstFree(forms, root, ex, i, now), ex)
    decreases k - i
  {
    hide Candidate, Free;
    if i < k && !Free(forms, Candidate(root, i), ex) { FirstFreeFinds(forms, root, ex, i + 1, k, now); }
  }

  lemma UniqueSlugFree(forms: Table, preferred: string, ex: Option<nat>, now: string)
    requires |Others(forms, ex)| < TRIES
    ensures Free(forms, UniqueSlug(forms, preferred, ex, now), ex)
  {
    hide Candidate, Free, Root, Others;
    SomeCandidateFree(forms, Root(preferred), ex);
    var k :| 0 <= k < TRIES && Free(forms, Candidate(Root(preferred), k), ex);
    FirstFreeFinds(forms, Root(preferred), ex, 0, k, now);
  }

  // ---------------------------------------------------------------- requests

  /** No two forms have the same slug. */
  predicate Distinct(forms: Table) {
    forall a, b | a in forms && b in forms && a != b :: forms[a].slug.None? || forms[a].slug != forms[b].slug
  }

  function Sanitized(s: string, max: nat): string { Cut(JsTrim(s), max) }

  /** Administrator requests.  `now` is the clock as a fallback prints it; a missing field of an
      update leaves the form as it is. */
  datatype Request =
    | Create(title: string, slugField: string, now: string)
    | Update(id: nat, newTitle: Option<string>, newSlug: Option<string>, now: string)
    | Delete(id: nat)

  datatype Repo = Repo(forms: Table, next: nat)

  function Put(forms: Table, id: nat, form: Form): Table { forms[id := form] }

  /** A new form; None when the title is empty. */
  function Created(r: Repo, title: string, slugField: string, now: string): Option<Repo> {
    var t := Sanitized(title, 200);
    if t == "" then None
    else
      var slug := UniqueSlug(r.forms, Sanitized(if slugField != "" then slugField else t, 120), None, now);
      Some(Repo(Put(r.forms, r.next, Form(t, Some(slug))), r.next + 1))
  }

  /** The slug field of an update, if it names a slug. */
  function Reslugged(forms: Table, id: nat, form: Form, newSlug: Option<string>, now: string): Form {
    if newSlug.Some? && Sanitized(newSlug.value, 120) != "" then
      form.(slug := Some(UniqueSlug(forms, Sanitized(newSlug.value, 120), Some(id), now)))
    else form
  }

  /** A form that still has no slug gets one from its title. */
  function Slugged(forms: Table, id: nat, form: Form, now: string): Form {
    if form.slug.None? || form.slug == Some("") then
      var preferred := if form.title != "" then form.title else "form-" + Decimal(id);
      form.(slug := Some(UniqueSlug(forms, preferred, Some(id), now)))
    else form
  }

  /** An updated form; None when there is no such form or its title would be empty. */
  function Updated(r: Repo, id: nat, newTitle: Option<string>, newSlug: Option<string>, now: string): Option<Repo> {
    if id !in r.forms then None
    else
      var titled := if newTitle.Some? then r.forms[id].(title := Sanitized(newTitle.value, 200)) else r.forms[id];
      var renamed := Reslugged(r.forms, id, titled, newSlug, now);
      if renamed.title == "" then None
      else Some(r.(forms := Put(r.forms, id, Slugged(r.forms, id, renamed, now))))
  }

  function Served(r: Repo, req: Request): Repo {
    match req
    case Create(title, slugField, now) =>
      (match Created(r, title, slugField, now) case None => r case Some(after) => after)
    case Update(id, newTitle, newSlug, now) =>
      (match Updated(r, id, newTitle, newSlug, now) case None => r case Some(after) => after)
    case Delete(id) => r.(forms := r.forms - {id})
  }

  predicate Valid(r: Repo) { r.next > 0 && Distinct(r.forms) && forall id | id in r.forms :: 0 < id < r.next }

  /** Fewer than a thousand forms besides the one a request is about. */
  predicate Room(r: Repo, req: Request) {
    match req
    case Create(_, _, _) => |r.forms.Keys| < TRIES
    case Update(id, _, _, _) => |r.forms.Keys - {id}| < TRIES
    case Delete(_) => true
  }

  lemma PutKeeps(forms: Table, id: nat, form: Form, ex: Option<nat>)
    requires Distinct(forms) && (id in forms ==> ex == Some(id)) && (ex.Some? ==> ex == Some(id))
    requires form.slug.Some? ==> Free(forms, form.slug.value, ex)
    ensures Distinct(Put(forms, id, form))
  {
  }

  /** The slug a form already has is free for that form. */
  lemma OwnSlugFree(forms: Table, id: nat)
    requires Distinct(forms) && id in forms && forms[id].slug.Some?
    ensures Free(forms, forms[id].slug.value, Some(id))
  {
  }

  lemma ServedKeeps(r: Repo, req: Request)
    requires Valid(r) && Room(r, req)
    ensures Valid(Served(r, req))
  {
    hide UniqueSlug, Sanitized, Free, Distinct, Decimal;
    match req
    case Create(title, slugField, now) =>
      var t := Sanitized(title, 200);
      if t != "" {
        var preferred := Sanitized(if slugField != "" then slugField else t, 120);
        UniqueSlugFree(r.forms, preferred, None, now);
        PutKeeps(r.forms, r.next, Form(t, Some(UniqueSlug(r.forms, preferred, None, now))), None);
      }
    case Update(id, newTitle, newSlug, now) => UpdateKeeps(r, id, newTitle, newSlug, now);
    case Delete(id) => DeleteKeeps(r.forms, id);
  }

  lemma DeleteKeeps(forms: Table, id: nat)
    requires Distinct(forms)
    ensures Distinct(forms - {id})
  {
  }

  lemma UpdateKeeps(r: Repo, id: nat, newTitle: Option<string>, newSlug: Option<string>, now: string)
    requires Valid(r) && |r.forms.Keys - {id}| < TRIES
    ensures Updated(r, id, newTitle, newSlug, now).Some? ==> Valid(Updated(r, id, newTitle, newSlug, now).value)
  {
    hide UniqueSlug, Sanitized, Free, Distinct, Decimal;
    if id in r.forms {
      var titled := if newTitle.Some? then r.forms[id].(title := Sanitized(newTitle.value, 200)) else r.forms[id];
      if r.forms[id].slug.Some? { OwnSlugFree(r.forms, id); }
      if newSlug.Some? { UniqueSlugFree(r.forms, Sanitized(newSlug.value, 120), Some(id), now); }
      var renamed := Reslugged(r.forms, id, titled, newSlug, now);
      UniqueSlugFree(r.forms, if renamed.title != "" then renamed.title else "form-" + Decimal(id), Some(id), now);
      PutKeeps(r.forms, id, Slugged(r.forms, id, renamed, now), Some(id));
    }
  }

  /** Serving requests one after the other. */
  function ServedAll(r: Repo, reqs: seq<Request>): Repo {
    if reqs == [] then r else Served(ServedAll(r, reqs[..|reqs| - 1]), reqs[|reqs| - 1])
  }

  ghost predicate RoomAll(r: Repo, reqs: seq<Request>) {
    reqs != [] ==> RoomAll(r, reqs[..|reqs| - 1]) && Room(ServedAll(r, reqs[..|reqs| - 1]), reqs[|reqs| - 1])
  }

  /** In every sequence of requests, as long as no request meets a thousand other forms, no two
      forms ever have the same slug. */
  lemma {:induction false} SlugsStayDistinct(r: Repo, reqs: seq<Request>)
    requires Valid(r) && RoomAll(r, reqs)
    ensures Valid(ServedAll(r, reqs))
  {
    hide Valid, Room, Served;
    if reqs != [] {
      SlugsStayDistinct(r, reqs[..|reqs| - 1]);
      ServedKeeps(ServedAll(r, reqs[..|reqs| - 1]), reqs[|reqs| - 1]);
    }
  }

  // ---------------------------------------------------------------- the handlers

  class FormStore {
    var forms: Table
    var next: nat

    ghost function View(): Repo
      reads this
    {
      Repo(forms, next)
    }

    constructor ()
      ensures View() == Repo(map[], 1) && Valid(View())
    {
      forms, next := map[], 1;
    }

    /** Some form with this slug, if there is one. */
    method FindOne(slug: string) returns (found: Option<nat>)
      ensures found.Some? ==> found.value in forms && forms[found.value].slug == Some(slug)
      ensures found.None? ==> forall id | id in forms :: forms[id].slug != Some(slug)
    {
      var ids := set id | id in forms && forms[id].slug == Some(slug);
      if ids == {} {
        assert forall id | id in forms && forms[id].slug == Some(slug) :: id in ids;
        return None;
      }
      var id :| id in ids;
      found := Some(id);
    }

    /** The first free candidate among a thousand, or a slug with the time in it. */
    method EnsureUniqueSlug(preferred: string, excludingId: Option<nat>, now: string) returns (slug: string)
      requires Distinct(forms) && excludingId != Some(0)
      ensures slug == UniqueSlug(forms, preferred, excludingId, now)
    {
      hide Slugify, Decimal, Candidate;
      var root := Cut(Slugify(preferred), 90);
      var i := 0;
      while i < TRIES
        invariant 0 <= i <= TRIES
        invariant FirstFree(forms, root, excludingId, i, now) == FirstFree(forms, root, excludingId, 0, now)
      {
        var candidate := Candidate(root, i);
        var existing := FindOne(candidate);
        if existing.None? || (excludingId.Some? && excludingId.value != 0 && existing == excludingId) {
          assert Free(forms, candidate, excludingId);
          return candidate;
        }
        i := i + 1;
      }
      slug := root + "-" + now;
    }

    method CreateForm(title: string, slugField: string, now: string) returns (created: bool)
      requires Valid(View())
      modifies this
      ensures View() == Served(old(View()), Create(title, slugField, now))
      ensures created == Created(old(View()), title, slugField, now).Some?
    {
      hide UniqueSlug, Sanitized, Distinct;
      var t := Sanitized(title, 200);
      if t == "" { return false; }
      var slug := EnsureUniqueSlug(Sanitized(if slugField != "" then slugField else t, 120), None, now);
      forms := forms[next := Form(t, Some(slug))];
      next := next + 1;
      created := true;
    }

    method UpdateForm(id: nat, newTitle: Option<string>, newSlug: Option<string>, now: string) returns (updated: bool)
      requires Valid(View())
      modifies this`forms
      ensures View() == Served(old(View()), Update(id, newTitle, newSlug, now))
      ensures updated == Updated(old(View()), id, newTitle, newSlug, now).Some?
    {
      hide UniqueSlug, Sanitized, Distinct, Decimal;
      if id !in forms { return false; }
      var form := forms[id];
      if newTitle.Some? { form := form.(title := Sanitized(newTitle.value, 200)); }
      if newSlug.Some? {
        var nextSlug := Sanitized(newSlug.value, 120);
        if nextSlug != "" {
          var slug := EnsureUniqueSlug(nextSlug, Some(id), now);
          form := form.(slug := Some(slug));
        }
      }
      if form.title == "" { return false; }
      if form.slug.None? || form.slug == Some("") {
        var slug := EnsureUniqueSlug(if form.title != "" then form.title else "form-" + Decimal(id), Some(id), now);
        form := form.(slug := Some(slug));
      }
      forms := forms[id := form];
      updated := true;
    }

    method DeleteForm(id: nat)
      modifies this`forms
      ensures View() == Served(old(View()), Delete(id))
    {
      forms := forms - {id};
    }

    /** Any request that meets fewer than a thousand other forms leaves all slugs distinct. */
    method Serve(req: Request)
      requires Valid(View()) && Room(View(), req)
      modifies this
      ensures View() == Served(old(View()), req) && Valid(View())
    {
      ServedKeeps(View(), req);
      hide Served, Valid;
      match req {
        case Create(title, slugField, now) => var created := CreateForm(title, slugField, now);
        case Update(id, newTitle, newSlug, now) => var updated := UpdateForm(id, newTitle, newSlug, now);
        case Delete(id) => DeleteForm(id);
      }
    }
  }

  // ---------------------------------------------------------------- what a slug is made of

  /** One pass over a text: letters and digits are kept; white space and hyphens between two kept
      characters become one hyphen; everything else is dropped.  `gap` says that white space or a
      hyphen was seen since the last kept character, `started` that there was one. */
  function Scan(s: string, gap: bool, started: bool): string {
    if s == "" then ""
    else if 'a' <= s[0] <= 'z' || '0' <= s[0] <= '9' then
      (if gap && started then "-" else "") + [s[0]] + Scan(s[1..], false, true)
    else if JsSpace(s[0]) || s[0] == '-' then Scan(s[1..], true, started)
    else Scan(s[1..], gap, started)
  }

  /** The same with the hyphen written as soon as a gap begins. */
  function Emit(s: string, inGap: bool): string {
    if s == "" then ""
    else if Alnum(s[0]) then [s[0]] + Emit(s[1..], false)
    else if inGap then Emit(s[1..], true)
    else "-" + Emit(s[1..], true)
  }

  predicate Spaced(s: string) { forall c | c in s :: Alnum(c) || JsSpace(c) || c == '-' }

  lemma CollapsedAlnum(c: char, s: string)
    requires c != '-'
    ensures Collapsed([c] + s) == [c] + Collapsed(s)
    ensures Collapsed("-" + ([c] + s)) == "-" + ([c] + Collapsed(s))
  {
    assert ([c] + s)[1..] == s && ("-" + ([c] + s))[1..] == [c] + s;
  }

  lemma CollapsedHyphens(s: string)
    ensures Collapsed("--" + s) == Collapsed("-" + s)
  {
    assert ("--" + s)[1..] == "-" + s;
  }

  lemma {:induction false} CollapsedEmits(f: string)
    requires Spaced(f)
    ensures Collapsed(Dashed(f)) == Emit(f, false) && Collapsed("-" + Dashed(f)) == "-" + Emit(f, true)
    decreases |f|
  {
    if f == "" {
      assert "-"[1..] == "";
    } else {
      var c, rest := f[0], f[1..];
      assert c in f && forall x | x in rest :: x in f;
      CollapsedEmits(rest);
      if Alnum(c) {
        assert !JsSpace(c);
        hide Collapsed;
        CollapsedAlnum(c, Dashed(rest));
      } else {
        hide Collapsed;
        CollapsedHyphens(Dashed(rest));
        assert "-" + ("-" + Dashed(rest)) == "--" + Dashed(rest);
      }
    }
  }

  function StripEnd(s: string): string {
    if s != "" && s[|s| - 1] == '-' then s[..|s| - 1] else s
  }

  lemma StripEndCons(c: char, s: string)
    requires c != '-'
    ensures StripEnd([c] + s) == [c] + StripEnd(s) && StripEnd("-" + ([c] + s)) == "-" + ([c] + StripEnd(s))
  {
  }

  lemma {:induction false} EmitScans(f: string)
    requires Spaced(f)
    ensures StripEnd(Emit(f, false)) == Scan(f, false, true)
    ensures StripEnd("-" + Emit(f, true)) == Scan(f, true, true)
    ensures StripEnd(Emit(f, true)) == Scan(f, true, false)
    decreases |f|
  {
    if f != "" {
      var c, rest := f[0], f[1..];
      assert c in f && forall x | x in rest :: x in f;
      EmitScans(rest);
      if Alnum(c) { StripEndCons(c, Emit(rest, false)); }
      hide StripEnd;
    }
  }

  lemma {:induction false} FilteredScans(s: string, gap: bool, started: bool)
    ensures Scan(Filtered(s), gap, started) == Scan(s, gap, started)
  {
    if s != "" {
      var c, rest := s[0], s[1..];
      if Alnum(c) || JsSpace(c) || c == '-' {
        assert ([c] + Filtered(rest))[1..] == Filtered(rest);
        FilteredScans(rest, if Alnum(c) then false else true, started || Alnum(c));
      } else {
        assert Filtered(s) == Filtered(rest);
        FilteredScans(rest, gap, started);
      }
    }
  }

  /** Before the first kept character gaps do not matter. */
  lemma {:induction false} LeadingGap(s: string)
    ensures Scan(s, true, false) == Scan(s, false, false)
  {
    if s != "" { LeadingGap(s[1..]); }
  }

  lemma {:induction false} TrimLeftScans(s: string)
    ensures Scan(JsTrimLeft(s), false, false) == Scan(s, false, false)
  {
    if s != "" && JsSpace(s[0]) {
      TrimLeftScans(s[1..]);
      LeadingGap(s[1..]);
    }
  }

  lemma {:induction false} TrailingSpace(s: string, c: char, gap: bool, started: bool)
    requires JsSpace(c)
    ensures Scan(s + [c], gap, started) == Scan(s, gap, started)
    decreases |s|
  {
    if s == "" {
      assert "" + [c] == [c] && [c][1..] == "";
    } else {
      assert (s + [c])[1..] == s[1..] + [c] && (s + [c])[0] == s[0];
      TrailingSpace(s[1..], c, false, true);
      TrailingSpace(s[1..], c, true, started);
      TrailingSpace(s[1..], c, gap, started);
    }
  }

  lemma {:induction false} TrimRightScans(s: string)
    ensures Scan(JsTrimRight(s), false, false) == Scan(s, false, false)
    decreases |s|
  {
    if s != "" && JsSpace(s[|s| - 1]) {
      var front := s[..|s| - 1];
      TrimRightScans(front);
      TrailingSpace(front, s[|s| - 1], false, false);
      assert s == front + [s[|s| - 1]];
    }
  }

  /** The chain of replacements of slugify is that one pass over the text in small letters, and
      "form" for a text without letters or digits. */
  lemma SlugifyIs(input: string)
    ensures var w := Scan(Lower(input), false, false);
      Slugify(input) == if w == "" then "form" else w
  {
    var low := Lower(input);
    var trimmed := JsTrim(low);
    var f := Filtered(trimmed);
    TrimRightScans(JsTrimLeft(low));
    TrimLeftScans(low);
    FilteredScans(trimmed, false, false);
    CollapsedEmits(f);
    EmitScans(f);
    hide Lower, JsTrimLeft, JsTrimRight, Filtered, Collapsed, Dashed;
    StripStart(f);
  }

  lemma StripStart(f: string)
    requires Spaced(f) && StripEnd(Emit(f, true)) == Scan(f, true, false)
    ensures Stripped(Emit(f, false)) == Scan(f, false, false)
  {
    LeadingGap(f);
    if f != "" {
      assert f[0] in f;
      var e := Emit(f, false);
      if !Alnum(f[0]) { assert e[1..] == Emit(f[1..], true) == Emit(f, true); }
      hide Scan;
    }
  }

  // ---------------------------------------------------------------- what the handlers store

  /** The slug found: the first 90 characters of the slug of the preferred text if no other form
      has it; otherwise that with the least number from 2 to 1000 that makes it free; and with
      the time if there is none. */
  lemma UniqueSlugIs(forms: Table, preferred: string, ex: Option<nat>, now: string)
    ensures var slug := Slugify(preferred);
      var root := if |slug| <= 90 then slug else slug[..90];
      && (Free(forms, root, ex) ==> UniqueSlug(forms, preferred, ex, now) == root)
      && (forall n: nat | !Free(forms, root, ex) && LeastFree(forms, root, ex, n) ::
            UniqueSlug(forms, preferred, ex, now) == root + "-" + Decimal(n))
      && (!Free(forms, root, ex) && NoneFree(forms, root, ex) ==>
            UniqueSlug(forms, preferred, ex, now) == root + "-" + now)
  {
    hide Slugify, Free, Decimal, FirstFree, LeastFree, NoneFree;
    var root := Root(preferred);
    TryRoot(forms, root, ex, now);
    if !Free(forms, root, ex) {
      forall n: nat | LeastFree(forms, root, ex, n)
        ensures UniqueSlug(forms, preferred, ex, now) == root + "-" + Decimal(n)
      {
        TryNumber(forms, root, ex, n, now);
      }
      if NoneFree(forms, root, ex) { TryTime(forms, root, ex, now); }
    }
  }

  /** `n` is the least number from 2 to 1000 that makes a free slug. */
  predicate LeastFree(forms: Table, root: string, ex: Option<nat>, n: nat) {
    && 2 <= n <= 1000 && Free(forms, root + "-" + Decimal(n), ex)
    && forall m: nat | 2 <= m < n :: !Free(forms, root + "-" + Decimal(m), ex)
  }

  predicate NoneFree(forms: Table, root: string, ex: Option<nat>) {
    forall m: nat | 2 <= m <= 1000 :: !Free(forms, root + "-" + Decimal(m), ex)
  }

  lemma TryRoot(forms: Table, root: string, ex: Option<nat>, now: string)
    ensures FirstFree(forms, root, ex, 0, now) ==
      if Free(forms, root, ex) then root else FirstFree(forms, root, ex, 1, now)
  {
    hide Free, Decimal;
  }

  lemma TryNumber(forms: Table, root: string, ex: Option<nat>, n: nat, now: string)
    requires LeastFree(forms, root, ex, n)
    ensures FirstFree(forms, root, ex, 1, now) == root + "-" + Decimal(n)
  {
    hide Free, Decimal, FirstFree;
    FirstFreeIs(forms, root, ex, 1, n - 1, now);
  }

  lemma TryTime(forms: Table, root: string, ex: Option<nat>, now: string)
    requires NoneFree(forms, root, ex)
    ensures FirstFree(forms, root, ex, 1, now) == root + "-" + now
  {
    hide Free, Decimal, FirstFree;
    FirstFreeIs(forms, root, ex, 1, 1000, now);
  }

  lemma {:induction false} FirstFreeIs(forms: Table, root: string, ex: Option<nat>, i: nat, k: nat, now: string)
    requires 1 <= i <= k <= TRIES
    requires forall m: nat | i < m <= k :: !Free(forms, root + "-" + Decimal(m), ex)
    requires k < TRIES ==> Free(forms, root + "-" + Decimal(k + 1), ex)
    ensures FirstFree(forms, root, ex, i, now) == root + "-" + if k < TRIES then Decimal(k + 1) else now
    decreases k - i
  {
    hide Free, Decimal;
    if i < k {
      assert !Free(forms, Candidate(root, i), ex);
      FirstFreeIs(forms, root, ex, i + 1, k, now);
    }
  }

  /** A text as the handlers keep it: trimmed and cut. */
  predicate Keeps(text: string, max: nat, kept: string) {
    var t := JsTrim(text); kept == if |t| <= max then t else t[..max]
  }

  /** Creating: refused without a title; otherwise a new number, the title, and a slug from the
      slug field or the title.  Every other form stays as it is. */
  lemma CreateMeans(r: Repo, title: string, slugField: string, now: string, kept: string, preferred: string)
    requires Keeps(title, 200, kept) && Keeps(if slugField != "" then slugField else kept, 120, preferred)
    ensures Served(r, Create(title, slugField, now)) ==
      if kept == "" then r
      else Repo(r.forms[r.next := Form(kept, Some(UniqueSlug(r.forms, preferred, None, now)))], r.next + 1)
  {
    hide UniqueSlug, JsTrim;
  }

  /** Updating: refused for a missing form or an empty title; a slug is replaced only by a slug
      field that is not empty, or if there is none; and no other form changes. */
  lemma UpdateMeans(r: Repo, id: nat, newTitle: Option<string>, newSlug: Option<string>, now: string)
    ensures var after := Served(r, Update(id, newTitle, newSlug, now));
      && after.next == r.next && after.forms.Keys == r.forms.Keys
      && (forall other | other in r.forms && other != id :: after.forms[other] == r.forms[other])
      && (id in r.forms && (newTitle.Some? ==> JsTrim(newTitle.value) != "") && r.forms[id].title != "" ==>
            && (if newTitle.Some? then Keeps(newTitle.value, 200, after.forms[id].title)
                else after.forms[id].title == r.forms[id].title)
            && (newSlug.None? || Keeps(newSlug.value, 120, "") ==>
                  after.forms[id].slug ==
                    if r.forms[id].slug.Some? && r.forms[id].slug != Some("") then r.forms[id].slug
                    else Some(UniqueSlug(r.forms, after.forms[id].title, Some(id), now)))
            && (forall p | newSlug.Some? && p != "" && Keeps(newSlug.value, 120, p) ::
                  after.forms[id].slug == Some(UniqueSlug(r.forms, p, Some(id), now))))
      && (id in r.forms && newTitle.Some? && JsTrim(newTitle.value) == "" ==> after == r)
  {
    hide JsTrim, Decimal, Slugify;
    if newSlug.Some? && Sanitized(newSlug.value, 120) != "" {
      SlugNotEmpty(r.forms, Sanitized(newSlug.value, 120), Some(id), now);
    }
    hide UniqueSlug;
  }

  lemma SlugNotEmpty(forms: Table, preferred: string, ex: Option<nat>, now: string)
    ensures UniqueSlug(forms, preferred, ex, now) != ""
  {
    SlugifyForm(preferred);
    hide Slugify, Decimal, Free;
    RootKept(forms, Root(preferred), ex, 0, now);
  }

  lemma {:induction false} RootKept(forms: Table, root: string, ex: Option<nat>, i: nat, now: string)
    requires i <= TRIES
    ensures root <= FirstFree(forms, root, ex, i, now)
    decreases TRIES - i
  {
    hide Free, Decimal;
    if i < TRIES { RootKept(forms, root, ex, i + 1, now); }
  }

  /** Saving a form with the slug it already has, if slugify could have made it, keeps that slug. */
  lemma OwnSlugKept(r: Repo, id: nat, slug: string, now: string)
    requires Valid(r) && id in r.forms && r.forms[id].slug == Some(slug) && r.forms[id].title != ""
    requires SlugForm(slug) && |slug| <= 90
    ensures Served(r, Update(id, None, Some(slug), now)).forms == r.forms
  {
    hide Slugify, JsTrim, SlugForm, Decimal, Free, UniqueSlug, Distinct;
    SlugTrim(slug);
    FixedPoint(slug);
    OwnSlugFree(r.forms, id);
    UniqueSlugIs(r.forms, slug, Some(id), now);
    assert Sanitized(slug, 120) == slug && slug != "" by { SlugShort(slug); }
    var form := r.forms[id];
    assert form.(slug := Some(slug)) == form;
    assert r.forms[id := form] == r.forms;
  }

  lemma SlugShort(slug: string)
    requires SlugForm(slug) && |slug| <= 90 && JsTrim(slug) == slug
    ensures Sanitized(slug, 120) == slug && slug != ""
  {
    hide JsTrim;
  }
}
