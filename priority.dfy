/**
 The priority test of the hour tracker: a teacher is a priority teacher when
 one of seven fixed first names occurs anywhere in the teacher's name. The
 match is a plain, case-sensitive substring search with no word boundaries,
 so a longer name that merely embeds one of the seven also counts.
 */
module Priority {

  /** The fixed list of priority first names, in the order the source lists them. */
  const PriorityTeachers: seq<string> :=
    ["Anisha", "Vivaran", "Mrigakshi", "Pranjali", "Atulan", "Cauveri", "Rohan"]

  /** `sub` occurs in `s` starting at position `i`. */
  predicate OccursAt(s: string, sub: string, i: int) {
    0 <= i && i + |sub| <= |s| && s[i..i + |sub|] == sub
  }

  /** String `includes`: a left-to-right search for `sub` in `s`. It
      succeeds exactly when `sub` occurs at some position of `s`. */
  function Includes(s: string, sub: string): (found: bool)
    ensures found <==> exists i :: OccursAt(s, sub, i)
    decreases |s|
  {
    if |sub| > |s| then
      assert forall i :: !OccursAt(s, sub, i);
      false
    else if s[..|sub|] == sub then
      assert OccursAt(s, sub, 0);
      true
    else
      OccursLater(s, sub);
      Includes(s[1..], sub)
  }

  /** When `sub` is not a prefix of `s`, it occurs in `s` exactly when it
      occurs in `s[1..]`. */
  lemma OccursLater(s: string, sub: string)
    requires |sub| <= |s| && s[..|sub|] != sub
    ensures (exists i :: OccursAt(s, sub, i)) <==> (exists i :: OccursAt(s[1..], sub, i))
  {
    if exists i :: OccursAt(s[1..], sub, i) {
      var i :| OccursAt(s[1..], sub, i);
      assert s[1..][i..i + |sub|] == s[i + 1..i + 1 + |sub|];
      assert OccursAt(s, sub, i + 1);
    }
    if exists i :: OccursAt(s, sub, i) {
      var i :| OccursAt(s, sub, i);
      assert i != 0;
      assert s[1..][i - 1..i - 1 + |sub|] == s[i..i + |sub|];
      assert OccursAt(s[1..], sub, i - 1);
    }
  }

  /** Array `some`: does any of `names` occur in `name`? */
  function SomeIncluded(name: string, names: seq<string>): (found: bool)
    ensures found <==> exists k :: 0 <= k < |names| && Includes(name, names[k])
  {
    if names == [] then false
    else
      assert forall k :: 1 <= k < |names| ==> names[1..][k - 1] == names[k];
      Includes(name, names[0]) || SomeIncluded(name, names[1..])
  }

  /** Whether a teacher gets the priority badge and sorts first: exactly
      when one of the seven names occurs in the teacher's name. */
  function IsPriority(name: string): (priority: bool)
    ensures priority <==>
      exists k, i :: 0 <= k < |PriorityTeachers| && OccursAt(name, PriorityTeachers[k], i)
  {
    SomeIncluded(name, PriorityTeachers)
  }

  /** Every name that contains one of the seven is priority, however it is
      embedded: a surname, a title or a longer first name around it. */
  lemma EmbeddedNameIsPriority(prefix: string, k: nat, suffix: string)
    requires k < |PriorityTeachers|
    ensures IsPriority(prefix + PriorityTeachers[k] + suffix)
  {
    var name := prefix + PriorityTeachers[k] + suffix;
    assert OccursAt(name, PriorityTeachers[k], |prefix|) by {
      assert name[|prefix|..|prefix| + |PriorityTeachers[k]|] == PriorityTeachers[k];
    }
  }

  /** The names of the worked example, and the match being case-sensitive. */
  lemma ExampleNames()
    ensures IsPriority("Anisha") && IsPriority("Rohan")
    ensures !IsPriority("Maya") && !IsPriority("Zara")
    ensures !IsPriority("anisha")
  {
    assert OccursAt("Anisha", PriorityTeachers[0], 0);
    assert OccursAt("Rohan", PriorityTeachers[6], 0);
    assert forall k :: 0 <= k < |PriorityTeachers| ==> |PriorityTeachers[k]| >= 5;
    var lower := "anisha";
    forall k, i | 0 <= k < |PriorityTeachers| ensures !OccursAt(lower, PriorityTeachers[k], i) {
      var sub := PriorityTeachers[k];
      if 0 <= i && i + |sub| <= |lower| {
        assert i <= 1 && 'A' <= sub[0] <= 'Z';
        FirstCharDiffers(lower, sub, i);
      }
    }
  }

  /** A mismatch at the first character rules out an occurrence. */
  lemma FirstCharDiffers(s: string, sub: string, i: int)
    requires 0 <= i < |s| && |sub| > 0 && s[i] != sub[0]
    ensures !OccursAt(s, sub, i)
  {
    if i + |sub| <= |s| {
      assert s[i..i + |sub|][0] == s[i];
    }
  }
}
