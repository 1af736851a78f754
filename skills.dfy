// Skill normalisation shared by the Developer entity and the developer
// service: a skill is stored trimmed and lower-cased, and blank skills are
// dropped.
module Skills {
  import opened Common
  import opened Text

  /** `skill.trim().toLowerCase()`. */
  function Normalize(s: string): (r: string)
    ensures IsTrimmed(r) && IsLower(r)
    ensures |r| == |Trim(s)|
  {
    LowerKeepsTrimmed(Trim(s));
    ToLower(Trim(s))
  }

  /** What a stored skill looks like. */
  predicate IsNormal(s: string)
  {
    s != [] && IsTrimmed(s) && IsLower(s)
  }

  lemma NormalizeNormal(s: string)
    requires IsTrimmed(s) && IsLower(s)
    ensures Normalize(s) == s
  {
    TrimTrimmed(s);
    LowerOfLower(s);
  }

  lemma {:induction false} NormalizeIdempotent(s: string)
    ensures Normalize(Normalize(s)) == Normalize(s)
  {
    NormalizeNormal(Normalize(s));
  }

  /**
   * The pipeline `filter(nonNull).map(trim().toLowerCase())
   * .filter(!isEmpty).collect(toSet())`; a null element is `None`.
   */
  function NormalizeAll(input: set<Option<string>>): (r: set<string>)
    ensures forall x :: x in r ==> IsNormal(x)
    ensures forall x :: x in r <==> exists o :: o in input && o.Some? && Normalize(o.value) == x && x != []
  {
    set o | o in input && o.Some? && Normalize(o.value) != [] :: Normalize(o.value)
  }

  /** A set of strings as the input of the pipeline (no nulls). */
  function Lift(skills: set<string>): set<Option<string>>
  {
    set x | x in skills :: Some(x)
  }

  /** Applying the normalisation twice gives the same set as applying it once. */
  lemma NormalizeAllIdempotent(input: set<Option<string>>)
    ensures NormalizeAll(Lift(NormalizeAll(input))) == NormalizeAll(input)
  {
    var once := NormalizeAll(input);
    RenormalizeKeeps(once);
    RenormalizeAddsNothing(once);
  }

  lemma RenormalizeKeeps(skills: set<string>)
    requires forall y :: y in skills ==> IsNormal(y)
    ensures skills <= NormalizeAll(Lift(skills))
  {
    forall x | x in skills ensures x in NormalizeAll(Lift(skills)) {
      KeptByRenormalizing(skills, x);
    }
  }

  lemma RenormalizeAddsNothing(skills: set<string>)
    requires forall y :: y in skills ==> IsNormal(y)
    ensures NormalizeAll(Lift(skills)) <= skills
  {
    forall x | x in NormalizeAll(Lift(skills)) ensures x in skills {
      RenormalizedWasThere(skills, x);
    }
  }

  lemma KeptByRenormalizing(skills: set<string>, x: string)
    requires x in skills && IsNormal(x)
    ensures x in NormalizeAll(Lift(skills))
  {
    NormalizeNormal(x);
    var o := Some(x);
    assert o in Lift(skills);
    assert Normalize(o.value) == x;
  }

  lemma RenormalizedWasThere(skills: set<string>, x: string)
    requires forall y :: y in skills ==> IsNormal(y)
    requires x in NormalizeAll(Lift(skills))
    ensures x in skills
  {
    var o :| o in Lift(skills) && o.Some? && Normalize(o.value) == x;
    var y :| y in skills && o == Some(y);
    NormalizeNormal(y);
  }

  /** `Developer.addSkill`: a null or blank skill is ignored. */
  function AddSkill(skills: set<string>, skill: Option<string>): set<string>
  {
    if skill.Some? && Trim(skill.value) != [] then skills + {Normalize(skill.value)} else skills
  }

  /** `Developer.removeSkill`: a null skill is ignored. */
  function RemoveSkill(skills: set<string>, skill: Option<string>): set<string>
  {
    if skill.Some? then skills - {Normalize(skill.value)} else skills
  }

  /** The skills after `addSkill`: the old ones plus the normal form of a non-blank skill. */
  lemma AddSkillEffect(skills: set<string>, skill: Option<string>)
    ensures skill.None? ==> AddSkill(skills, skill) == skills
    ensures skill.Some? && AllBlank(skill.value) ==> AddSkill(skills, skill) == skills
    ensures skill.Some? && !AllBlank(skill.value) ==>
      AddSkill(skills, skill) == skills + {Normalize(skill.value)} && IsNormal(Normalize(skill.value))
  {
    if skill.Some? {
      var s := skill.value;
      var i := LeadingBlanks(s);
      if AllBlank(s) {
        assert i == |s|;
      } else {
        var k :| 0 <= k < |s| && !Blank(s[k]);
        assert k >= i;
        assert i < |s| && !Blank(s[i]);
      }
    }
  }

  /** Normalising storage never admits a malformed skill. */
  lemma AddSkillKeepsNormal(skills: set<string>, skill: Option<string>)
    requires forall x :: x in skills ==> IsNormal(x)
    ensures forall x :: x in AddSkill(skills, skill) ==> IsNormal(x)
  {
    if skill.Some? && Trim(skill.value) != [] {
      assert IsNormal(Normalize(skill.value));
    }
  }

  /** `removeSkill(s)` takes out exactly what `addSkill(s)` put in. */
  lemma {:induction false} AddThenRemove(skills: set<string>, s: string)
    ensures Normalize(s) !in RemoveSkill(AddSkill(skills, Some(s)), Some(s))
    ensures RemoveSkill(AddSkill(skills, Some(s)), Some(s)) == skills - {Normalize(s)}
  {
  }

  /** Adding the same skill twice is the same as adding it once. */
  lemma {:induction false} AddTwice(skills: set<string>, skill: Option<string>)
    ensures AddSkill(AddSkill(skills, skill), skill) == AddSkill(skills, skill)
  {
  }

  /** Removal looks for the normal form: " JAVA " removes "java". */
  lemma RemoveUsesNormalForm(skills: set<string>, skill: string)
    ensures RemoveSkill(skills, Some(skill)) == skills - {Normalize(skill)}
    ensures RemoveSkill(skills, None) == skills
    ensures RemoveSkill({"java", "sql"}, Some(" JAVA ")) == {"sql"}
  {
    assert LeadingBlanks(" JAVA ") == 1;
    assert " JAVA "[1..] == "JAVA ";
    assert TrailingBlanks("JAVA ") == 1;
    assert Trim(" JAVA ") == "JAVA";
    assert ToLower("JAVA") == "java";
  }
}
