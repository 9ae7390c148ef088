/** `PUT /api/profile`: the signed-in account rewrites its profile's name
    and languages and replaces its whole skill listing. The handler is
    modelled in two steps: validation yields the SQL statements it issues,
    in order, and executing those statements changes the profile tables. */
module ProfileUpdate {
  import opened Basics

  /** A `skill_profile` row's editable columns. */
  datatype Profile = Profile(name: Option<string>, languages: seq<string>)

  /** One `skill_listing` row (its description and tags are written empty). */
  datatype Listing = Listing(profile: int, skill: string, languages: seq<string>)

  /** The tables the handler touches: which profile each account owns, the
      profile rows, and the skill listings in insertion order. */
  datatype Directory = Directory(
    profileOf: map<int, int>,
    profiles: map<int, Profile>,
    listings: seq<Listing>)

  /** The writes the handler issues. */
  datatype Statement =
    | SetProfile(profile: int, name: Option<string>, languages: seq<string>)
    | DeleteListings(profile: int)
    | InsertListing(profile: int, skill: string, languages: seq<string>)

  datatype ProfileError =
    | NotLoggedIn        // 401
    | InvalidSkills      // 400
    | InvalidLanguages   // 400
    | ProfileNotFound    // 404

  function HttpCode(e: ProfileError): int {
    match e
    case NotLoggedIn => 401
    case InvalidSkills => 400
    case InvalidLanguages => 400
    case ProfileNotFound => 404
  }

  /** A body field that must be an array of truthy strings: `None` when it is
      not an array; inside, `None` stands for `null`/`undefined`. */
  predicate ValidEntries(field: Option<seq<Option<string>>>) {
    field.Some? && forall i :: 0 <= i < |field.value| ==> field.value[i].Some? && field.value[i].value != ""
  }

  /** The strings of a validated array. */
  function Texts(xs: seq<Option<string>>): (r: seq<string>)
    requires forall i :: 0 <= i < |xs| ==> xs[i].Some?
    ensures |r| == |xs|
    ensures forall i :: 0 <= i < |xs| ==> Some(r[i]) == xs[i]
  {
    if xs == [] then [] else [xs[0].value] + Texts(xs[1..])
  }

  /** One insert per skill, in the order given. */
  function Inserts(profile: int, skills: seq<string>, languages: seq<string>): (r: seq<Statement>)
    ensures |r| == |skills|
    ensures forall i :: 0 <= i < |skills| ==> r[i] == InsertListing(profile, skills[i], languages)
  {
    if skills == [] then [] else [InsertListing(profile, skills[0], languages)] + Inserts(profile, skills[1..], languages)
  }

  /** Validation and the statements issued on success: the profile row is
      updated, every old listing of the profile is deleted, then one listing
      per skill is inserted in the order of `skills`. */
  function PlanUpdate(userId: Option<int>, name: Option<string>,
                      skills: Option<seq<Option<string>>>, languages: Option<seq<Option<string>>>,
                      profileOf: map<int, int>): (r: Result<seq<Statement>, ProfileError>)
    ensures r == Err(NotLoggedIn) <==> !Truthy(userId)
    ensures r == Err(InvalidSkills) <==> Truthy(userId) && !ValidEntries(skills)
    ensures r == Err(InvalidLanguages) <==> Truthy(userId) && ValidEntries(skills) && !ValidEntries(languages)
    ensures r == Err(ProfileNotFound) <==>
              Truthy(userId) && ValidEntries(skills) && ValidEntries(languages) && userId.value !in profileOf
    ensures r.Ok? ==>
              && userId.Some? && userId.value in profileOf && ValidEntries(skills) && ValidEntries(languages)
              && var p := profileOf[userId.value];
              && |r.value| == 2 + |skills.value|
              && r.value[0] == SetProfile(p, name, Texts(languages.value))
              && r.value[1] == DeleteListings(p)
              && forall i :: 0 <= i < |skills.value| ==>
                   r.value[2 + i] == InsertListing(p, Texts(skills.value)[i], Texts(languages.value))
  {
    if !Truthy(userId) then Err(NotLoggedIn)
    else if !ValidEntries(skills) then Err(InvalidSkills)
    else if !ValidEntries(languages) then Err(InvalidLanguages)
    else if userId.value !in profileOf then Err(ProfileNotFound)
    else
      var p := profileOf[userId.value];
      var langs := Texts(languages.value);
      Ok([SetProfile(p, name, langs), DeleteListings(p)] + Inserts(p, Texts(skills.value), langs))
  }

  /** The listings of every profile but `profile`. */
  function WithoutProfile(ls: seq<Listing>, profile: int): (r: seq<Listing>)
    ensures forall l :: l in r <==> l in ls && l.profile != profile
  {
    if ls == [] then []
    else if ls[0].profile == profile then WithoutProfile(ls[1..], profile)
    else [ls[0]] + WithoutProfile(ls[1..], profile)
  }

  /** The skills listed for `profile`, in insertion order. */
  function SkillsOf(ls: seq<Listing>, profile: int): (r: seq<string>)
    ensures |r| <= |ls|
  {
    if ls == [] then []
    else if ls[0].profile == profile then [ls[0].skill] + SkillsOf(ls[1..], profile)
    else SkillsOf(ls[1..], profile)
  }

  /** The effect of one statement. An UPDATE of a missing profile row
      changes nothing. */
  function Step(d: Directory, st: Statement): Directory {
    match st
    case SetProfile(p, name, langs) =>
      if p in d.profiles then d.(profiles := d.profiles[p := Profile(name, langs)]) else d
    case DeleteListings(p) => d.(listings := WithoutProfile(d.listings, p))
    case InsertListing(p, skill, langs) => d.(listings := d.listings + [Listing(p, skill, langs)])
  }

  /** The statements run one after the other. */
  function Execute(d: Directory, sts: seq<Statement>): Directory
    decreases |sts|
  {
    if sts == [] then d else Execute(Step(d, sts[0]), sts[1..])
  }

  /** The whole handler: validation, then the statements. */
  function UpdateProfile(d: Directory, userId: Option<int>, name: Option<string>,
                         skills: Option<seq<Option<string>>>, languages: Option<seq<Option<string>>>)
    : (r: Result<Directory, ProfileError>)
    ensures r.Err? <==> PlanUpdate(userId, name, skills, languages, d.profileOf).Err?
    ensures r.Err? ==> r.error == PlanUpdate(userId, name, skills, languages, d.profileOf).error
  {
    match PlanUpdate(userId, name, skills, languages, d.profileOf)
    case Err(e) => Err(e)
    case Ok(sts) => Ok(Execute(d, sts))
  }

  lemma {:induction false} SkillsOfAppend(a: seq<Listing>, b: seq<Listing>, p: int)
    ensures SkillsOf(a + b, p) == SkillsOf(a, p) + SkillsOf(b, p)
    decreases |a|
  {
    if a == [] {
      assert a + b == b;
    } else {
      assert (a + b)[1..] == a[1..] + b;
      SkillsOfAppend(a[1..], b, p);
    }
  }

  /** After deleting a profile's listings it has none, and every other
      profile keeps its list unchanged. */
  lemma {:induction false} SkillsOfWithout(ls: seq<Listing>, p: int, q: int)
    ensures SkillsOf(WithoutProfile(ls, p), p) == []
    ensures q != p ==> SkillsOf(WithoutProfile(ls, p), q) == SkillsOf(ls, q)
    decreases |ls|
  {
    if ls != [] {
      SkillsOfWithout(ls[1..], p, q);
      if ls[0].profile != p {
        SkillsOfAppend([ls[0]], WithoutProfile(ls[1..], p), p);
        SkillsOfAppend([ls[0]], WithoutProfile(ls[1..], p), q);
      }
    }
  }

  /** The listings the inserts add, one per skill, in order. */
  function NewListings(p: int, skills: seq<string>, langs: seq<string>): (r: seq<Listing>)
    ensures |r| == |skills|
  {
    if skills == [] then [] else [Listing(p, skills[0], langs)] + NewListings(p, skills[1..], langs)
  }

  /** Running the inserts appends one listing per skill, in order, and
      touches nothing but the listings. */
  lemma {:induction false} ExecuteInserts(d: Directory, p: int, skills: seq<string>, langs: seq<string>)
    ensures Execute(d, Inserts(p, skills, langs)) == d.(listings := d.listings + NewListings(p, skills, langs))
    decreases |skills|
  {
    if skills == [] {
      assert d.listings + [] == d.listings;
    } else {
      var sts := Inserts(p, skills, langs);
      var first := Listing(p, skills[0], langs);
      var later := NewListings(p, skills[1..], langs);
      var d' := d.(listings := d.listings + [first]);
      assert Execute(d, sts) == Execute(d', Inserts(p, skills[1..], langs)) by {
        assert sts == [InsertListing(p, skills[0], langs)] + Inserts(p, skills[1..], langs);
        assert sts[1..] == Inserts(p, skills[1..], langs);
        assert Step(d, sts[0]) == d';
      }
      ExecuteInserts(d', p, skills[1..], langs);
      assert d'.listings + later == d.listings + NewListings(p, skills, langs) by {
        assert NewListings(p, skills, langs) == [first] + later;
        assert (d.listings + [first]) + later == d.listings + ([first] + later);
      }
    }
  }

  /** The new listings hold the given skills for `p` and none for any other
      profile. */
  lemma {:induction false} SkillsOfNewListings(p: int, skills: seq<string>, langs: seq<string>, q: int)
    ensures SkillsOf(NewListings(p, skills, langs), q) == (if q == p then skills else [])
    decreases |skills|
  {
    if skills != [] {
      var ls := NewListings(p, skills, langs);
      assert ls[1..] == NewListings(p, skills[1..], langs);
      SkillsOfNewListings(p, skills[1..], langs, q);
      if q == p {
        assert [skills[0]] + skills[1..] == skills;
      }
    }
  }

  lemma {:induction false} WithoutProfileAppend(a: seq<Listing>, b: seq<Listing>, p: int)
    ensures WithoutProfile(a + b, p) == WithoutProfile(a, p) + WithoutProfile(b, p)
    decreases |a|
  {
    if a == [] {
      assert a + b == b;
    } else {
      assert (a + b)[1..] == a[1..] + b;
      WithoutProfileAppend(a[1..], b, p);
    }
  }

  /** Deleting a profile's listings a second time deletes nothing more. */
  lemma {:induction false} WithoutProfileTwice(ls: seq<Listing>, p: int)
    ensures WithoutProfile(WithoutProfile(ls, p), p) == WithoutProfile(ls, p)
    decreases |ls|
  {
    if ls != [] {
      WithoutProfileTwice(ls[1..], p);
      if ls[0].profile != p {
        WithoutProfileAppend([ls[0]], WithoutProfile(ls[1..], p), p);
      }
    }
  }

  /** The new listings all belong to `p`. */
  lemma {:induction false} WithoutProfileNewListings(p: int, skills: seq<string>, langs: seq<string>)
    ensures WithoutProfile(NewListings(p, skills, langs), p) == []
    decreases |skills|
  {
    if skills != [] {
      var ls := NewListings(p, skills, langs);
      assert ls[1..] == NewListings(p, skills[1..], langs);
      WithoutProfileNewListings(p, skills[1..], langs);
    }
  }

  /** A successful update leaves the profile's skill listing exactly the
      given skills, in order, with the old listings gone; the listing rows of
      other profiles and the account table are untouched, and the profile row
      holds the new name and languages. */
  lemma UpdateReplacesSkills(d: Directory, userId: Option<int>, name: Option<string>,
                             skills: Option<seq<Option<string>>>, languages: Option<seq<Option<string>>>)
    requires UpdateProfile(d, userId, name, skills, languages).Ok?
    ensures userId.Some? && userId.value in d.profileOf && ValidEntries(skills) && ValidEntries(languages)
    ensures var d' := UpdateProfile(d, userId, name, skills, languages).value;
            var p := d.profileOf[userId.value];
            && d'.profileOf == d.profileOf
            && SkillsOf(d'.listings, p) == Texts(skills.value)
            && (forall q :: q != p ==> SkillsOf(d'.listings, q) == SkillsOf(d.listings, q))
            && WithoutProfile(d'.listings, p) == WithoutProfile(d.listings, p)
            && (p in d.profiles ==> d'.profiles == d.profiles[p := Profile(name, Texts(languages.value))])
            && (p !in d.profiles ==> d'.profiles == d.profiles)
  {
    var sts := PlanUpdate(userId, name, skills, languages, d.profileOf).value;
    var p := d.profileOf[userId.value];
    var langs := Texts(languages.value);
    var d1 := Step(d, sts[0]);
    var d2 := Step(d1, sts[1]);
    var added := NewListings(p, Texts(skills.value), langs);
    assert sts[2..] == Inserts(p, Texts(skills.value), langs);
    assert Execute(d, sts) == Execute(d2, sts[2..]);
    ExecuteInserts(d2, p, Texts(skills.value), langs);
    SkillsOfWithout(d1.listings, p, p);
    SkillsOfAppend(d2.listings, added, p);
    SkillsOfNewListings(p, Texts(skills.value), langs, p);
    WithoutProfileAppend(d2.listings, added, p);
    WithoutProfileTwice(d.listings, p);
    WithoutProfileNewListings(p, Texts(skills.value), langs);
    assert WithoutProfile(d2.listings + added, p) == WithoutProfile(d.listings, p);
    forall q | q != p
      ensures SkillsOf(d2.listings + added, q) == SkillsOf(d.listings, q)
    {
      SkillsOfWithout(d1.listings, p, q);
      SkillsOfAppend(d2.listings, added, q);
      SkillsOfNewListings(p, Texts(skills.value), langs, q);
    }
  }

  /** The unit test: profile 1 is given the skills JavaScript, Node.js and
      React; afterwards exactly those three are listed for it, in order. */
  lemma SkillListingTestCase(d: Directory)
    requires d.profileOf == map[1 := 1]
    ensures var r := UpdateProfile(d, Some(1), Some("Test"),
                                   Some([Some("JavaScript"), Some("Node.js"), Some("React")]),
                                   Some([Some("English")]));
            r.Ok? && SkillsOf(r.value.listings, 1) == ["JavaScript", "Node.js", "React"]
  {
    var skills := Some([Some("JavaScript"), Some("Node.js"), Some("React")]);
    var languages := Some([Some("English")]);
    assert ValidEntries(skills);
    assert ValidEntries(languages);
    UpdateReplacesSkills(d, Some(1), Some("Test"), skills, languages);
    var t := Texts(skills.value);
    assert t == ["JavaScript", "Node.js", "React"];
  }
}
