/**
 The technical-skills editor of the candidate form: a list of rows, each either
 empty, picked from the dropdown of common skills, or typed in as a custom skill.
 */
module Skills {
  import opened Text

  /** A row's `type`: "none", "dropdown" or "custom". */
  datatype Kind = Unset | Dropdown | Custom

  /** One row: `{"value": ..., "type": ...}`. */
  datatype Skill = Skill(value: string, kind: Kind)

  const CommonSkills: seq<string> :=
    ["Python", "Java", "JavaScript", "C++", "React", "Node.js", "Django", "SQL", "AWS", "Docker"]

  /** The first dropdown entry, which selects nothing. */
  const SkillPlaceholder: string := "Select Skill..."

  /** An empty row. */
  const Blank := Skill("", Unset)

  /** The list a session starts with: one empty row. */
  const InitialSkills: seq<Skill> := [Blank]

  /** "Add Skill": append one empty row. */
  function AddSkill(ss: seq<Skill>): (r: seq<Skill>)
    ensures |r| == |ss| + 1 && r[..|ss|] == ss && r[|ss|] == Blank
  {
    ss + [Blank]
  }

  /** "Remove Last Skill": drop the last row, but never the only one. */
  function RemoveSkill(ss: seq<Skill>): (r: seq<Skill>)
    ensures |ss| >= 1 ==> |r| >= 1
    ensures |ss| > 1 ==> |r| == |ss| - 1 && r == ss[..|r|]
    ensures |ss| <= 1 ==> r == ss
  {
    if |ss| > 1 then ss[..|ss| - 1] else ss
  }

  /** Removing undoes adding. */
  lemma RemoveUndoesAdd(ss: seq<Skill>)
    requires |ss| >= 1
    ensures RemoveSkill(AddSkill(ss)) == ss
  {
    assert AddSkill(ss)[..|ss|] == ss;
  }

  /** The custom-skill callback for row `idx`: a blank entry is ignored, anything else is
      stored stripped and the row becomes a custom skill. */
  function UpdateCustomSkill(ss: seq<Skill>, idx: nat, text: string): (r: seq<Skill>)
    requires idx < |ss|
    ensures |r| == |ss|
    ensures forall k :: 0 <= k < |ss| && k != idx ==> r[k] == ss[k]
    ensures IsBlank(text) ==> r[idx] == ss[idx]
    ensures !IsBlank(text) ==> r[idx] == Skill(Strip(text), Custom) && r[idx].value != [] && !IsBlank(r[idx].value)
  {
    StripEmptyIffBlank(text);
    StrippedBlankIsEmpty(text);
    if Strip(text) != [] then ss[idx := Skill(Strip(text), Custom)] else ss
  }

  /** The values of the rows currently typed "dropdown" (`selected_dropdowns` before the loop). */
  function DropdownValues(ss: seq<Skill>): (r: seq<string>)
    ensures forall x :: x in r <==> exists k :: 0 <= k < |ss| && ss[k].kind == Dropdown && ss[k].value == x
  {
    if |ss| == 0 then []
    else
      var rest := DropdownValues(ss[1..]);
      assert forall k :: 1 <= k < |ss| ==> ss[k] == ss[1..][k - 1];
      if ss[0].kind == Dropdown then [ss[0].value] + rest else rest
  }

  /** The dropdown of a row: the placeholder, then each common skill that no other dropdown has
      taken yet, keeping the row's own value available. */
  function Options(selected: seq<string>, current: string): (r: seq<string>)
    ensures |r| >= 1 && r[0] == SkillPlaceholder
    ensures forall x :: x in r[1..] <==> x in CommonSkills && (x !in selected || x == current)
  {
    [SkillPlaceholder] + OptionsFrom(CommonSkills, selected, current)
  }

  function OptionsFrom(pool: seq<string>, selected: seq<string>, current: string): (r: seq<string>)
    ensures forall x :: x in r <==> x in pool && (x !in selected || x == current)
  {
    if |pool| == 0 then []
    else
      var rest := OptionsFrom(pool[1..], selected, current);
      assert forall x :: x in pool <==> x == pool[0] || x in pool[1..];
      if pool[0] !in selected || pool[0] == current then [pool[0]] + rest else rest
  }

  /** The dropdown step for a row that is not custom, as written: a real choice makes the row
      a dropdown skill; otherwise the row is reset to "none" but keeps its old value. */
  function RowAsWritten(skill: Skill, choice: string): (r: Skill)
    ensures r.kind == Dropdown <==> choice != "" && choice != SkillPlaceholder
    ensures r.kind == Dropdown ==> r.value == choice
    ensures r.kind != Dropdown ==> r.kind == Unset && r.value == skill.value
  {
    if choice != "" && choice != SkillPlaceholder then Skill(choice, Dropdown)
    else Skill(skill.value, Unset)
  }

  /** The dropdown step with the stale value cleared: deselecting empties the row. */
  function Row(skill: Skill, choice: string): (r: Skill)
    ensures r.kind == Dropdown <==> choice != "" && choice != SkillPlaceholder
    ensures r.kind == Dropdown ==> r.value == choice
    ensures r.kind != Dropdown ==> r == Blank
  {
    if choice != "" && choice != SkillPlaceholder then Skill(choice, Dropdown) else Blank
  }

  /** The positions before `i` of the rows that show a dropdown, in increasing order. */
  function DropdownIndices(ss: seq<Skill>, i: nat): (r: seq<nat>)
    requires i <= |ss|
    ensures forall j :: 0 <= j < |r| ==> r[j] < i && ss[r[j]].kind != Custom
    ensures forall j, j' :: 0 <= j < j' < |r| ==> r[j] < r[j']
  {
    if i == 0 then []
    else DropdownIndices(ss, i - 1) + (if ss[i - 1].kind != Custom then [i - 1] else [])
  }

  /** Every dropdown row before `i` is listed by `DropdownIndices`. */
  lemma {:induction false} DropdownIndicesComplete(ss: seq<Skill>, i: nat)
    requires i <= |ss|
    ensures forall k :: 0 <= k < i && ss[k].kind != Custom ==> k in DropdownIndices(ss, i)
  {
    if i > 0 {
      DropdownIndicesComplete(ss, i - 1);
    }
  }

  /** The choices made by the rows before `i` that show a dropdown, in order. */
  function ChosenBefore(ss: seq<Skill>, choices: seq<string>, i: nat): (r: seq<string>)
    requires i <= |ss| && |choices| == |ss|
    ensures forall k :: 0 <= k < i && ss[k].kind != Custom ==> choices[k] in r
  {
    if i == 0 then []
    else ChosenBefore(ss, choices, i - 1) + (if ss[i - 1].kind != Custom then [choices[i - 1]] else [])
  }

  /** `ChosenBefore` holds exactly the choices of the dropdown rows before `i`, one per such row
      and in row order. */
  lemma {:induction false} ChosenBeforeInOrder(ss: seq<Skill>, choices: seq<string>, i: nat)
    requires i <= |ss| && |choices| == |ss|
    ensures |ChosenBefore(ss, choices, i)| == |DropdownIndices(ss, i)|
    ensures forall j :: 0 <= j < |DropdownIndices(ss, i)| ==>
              ChosenBefore(ss, choices, i)[j] == choices[DropdownIndices(ss, i)[j]]
  {
    if i > 0 {
      ChosenBeforeInOrder(ss, choices, i - 1);
      var prev, pd := ChosenBefore(ss, choices, i - 1), DropdownIndices(ss, i - 1);
      if ss[i - 1].kind != Custom {
        ChosenStep(prev, pd, choices, i - 1);
      }
    }
  }

  /** One step of `ChosenBeforeInOrder`: appending a row's choice and its index keeps the two
      sequences aligned. */
  lemma ChosenStep(prev: seq<string>, pd: seq<nat>, choices: seq<string>, k: nat)
    requires k < |choices| && |prev| == |pd|
    requires forall j :: 0 <= j < |pd| ==> pd[j] < |choices| && prev[j] == choices[pd[j]]
    ensures forall j :: 0 <= j < |pd| + 1 ==> (pd + [k])[j] < |choices| && (prev + [choices[k]])[j] == choices[(pd + [k])[j]]
  {
    forall j | 0 <= j < |pd| + 1
      ensures (pd + [k])[j] < |choices| && (prev + [choices[k]])[j] == choices[(pd + [k])[j]]
    {
      if j < |pd| {
        assert (pd + [k])[j] == pd[j] && (prev + [choices[k]])[j] == prev[j];
      }
    }
  }

  /** Every value `ChosenBefore` offers was chosen by an earlier dropdown row. */
  lemma ChosenBeforeOnlyChosen(ss: seq<Skill>, choices: seq<string>, i: nat)
    requires i <= |ss| && |choices| == |ss|
    ensures forall x :: x in ChosenBefore(ss, choices, i) ==>
              exists k :: 0 <= k < i && ss[k].kind != Custom && choices[k] == x
  {
    ChosenBeforeInOrder(ss, choices, i);
    var r, d := ChosenBefore(ss, choices, i), DropdownIndices(ss, i);
    forall x | x in r
      ensures exists k :: 0 <= k < i && ss[k].kind != Custom && choices[k] == x
    {
      var j :| 0 <= j < |r| && r[j] == x;
      assert ss[d[j]].kind != Custom && choices[d[j]] == x;
    }
  }

  /** The rows after one render of the editor, as written: custom rows are untouched and every
      other row takes its dropdown choice through `RowAsWritten`. */
  function RowsAsWritten(ss: seq<Skill>, choices: seq<string>): (r: seq<Skill>)
    requires |choices| == |ss|
    ensures |r| == |ss|
    ensures forall k :: 0 <= k < |ss| ==> r[k] == (if ss[k].kind == Custom then ss[k] else RowAsWritten(ss[k], choices[k]))
  {
    seq(|ss|, k requires 0 <= k < |ss| => if ss[k].kind == Custom then ss[k] else RowAsWritten(ss[k], choices[k]))
  }

  /** The rows after one render with the stale value cleared: every row that is not custom
      takes its dropdown choice through `Row`. */
  function Rows(ss: seq<Skill>, choices: seq<string>): (r: seq<Skill>)
    requires |choices| == |ss|
    ensures |r| == |ss|
    ensures forall k :: 0 <= k < |ss| ==> r[k] == (if ss[k].kind == Custom then ss[k] else Row(ss[k], choices[k]))
  {
    seq(|ss|, k requires 0 <= k < |ss| => if ss[k].kind == Custom then ss[k] else Row(ss[k], choices[k]))
  }

  /** The dropdown offered to row `k` during a render. */
  function OfferedAt(ss: seq<Skill>, choices: seq<string>, k: nat): seq<string>
    requires k < |ss| && |choices| == |ss|
  {
    Options(DropdownValues(ss) + ChosenBefore(ss, choices, k), ss[k].value)
  }

  /** One render of the editor, row by row as the source does it: each row that is not custom
      is offered the options left by `selected_dropdowns`, takes its choice as written (a
      deselected row keeps its value), and the choice is appended to `selected_dropdowns`.
      Returns the new rows and the options each row offered. */
  method RenderSkillRows(ss: seq<Skill>, choices: seq<string>) returns (r: seq<Skill>, offered: seq<seq<string>>)
    requires |choices| == |ss|
    ensures r == RowsAsWritten(ss, choices)
    ensures |offered| == |ss|
    ensures forall k :: 0 <= k < |ss| && ss[k].kind != Custom ==> offered[k] == OfferedAt(ss, choices, k)
  {
    var selected := DropdownValues(ss);
    r := [];
    offered := [];
    var i := 0;
    while i < |ss|
      invariant 0 <= i <= |ss|
      invariant |offered| == i
      invariant selected == DropdownValues(ss) + ChosenBefore(ss, choices, i)
      invariant r == RowsAsWritten(ss, choices)[..i]
      invariant forall k :: 0 <= k < i && ss[k].kind != Custom ==> offered[k] == OfferedAt(ss, choices, k)
    {
      var row := ss[i];
      if ss[i].kind != Custom {
        assert Options(selected, ss[i].value) == OfferedAt(ss, choices, i);
        offered := offered + [Options(selected, ss[i].value)];
        row := RowAsWritten(ss[i], choices[i]);
        selected := selected + [choices[i]];
      } else {
        offered := offered + [[]];
      }
      RenderStep(ss, choices, i);
      r := r + [row];
      i := i + 1;
    }
    assert RowsAsWritten(ss, choices)[..|ss|] == RowsAsWritten(ss, choices);
  }

  /** One row of the render: the rows so far grow by this row's step, and the choices seen so
      far by this row's choice when it shows a dropdown. */
  lemma RenderStep(ss: seq<Skill>, choices: seq<string>, i: nat)
    requires i < |ss| && |choices| == |ss|
    ensures RowsAsWritten(ss, choices)[..i + 1]
            == RowsAsWritten(ss, choices)[..i] + [if ss[i].kind == Custom then ss[i] else RowAsWritten(ss[i], choices[i])]
    ensures ChosenBefore(ss, choices, i + 1)
            == ChosenBefore(ss, choices, i) + (if ss[i].kind != Custom then [choices[i]] else [])
  {
    PrefixStep(RowsAsWritten(ss, choices), i);
  }

  /** Growing a prefix by one element. */
  lemma PrefixStep<T>(xs: seq<T>, i: nat)
    requires i < |xs|
    ensures xs[..i + 1] == xs[..i] + [xs[i]]
  {
  }

  /** As written, a render in which a dropdown row falls back to the placeholder leaves that row
      "none" but holding its old skill, which therefore stays in `final_skills`; with the stale
      value cleared the row is empty. */
  lemma RenderKeepsDeselectedSkill(ss: seq<Skill>, choices: seq<string>, k: nat)
    requires |choices| == |ss| && k < |ss| && ss[k].kind == Dropdown && !IsBlank(ss[k].value)
    requires choices[k] == SkillPlaceholder
    ensures RowsAsWritten(ss, choices)[k] == Skill(ss[k].value, Unset)
    ensures ss[k].value in FinalSkills(RowsAsWritten(ss, choices))
    ensures Rows(ss, choices)[k] == Blank
  {
    var r := RowsAsWritten(ss, choices);
    FinalSkillsMembers(r);
    assert r[k].value == ss[k].value;
  }

  /** The editor's well-formedness: empty rows hold no value, dropdown rows hold common skills,
      and no two dropdown rows hold the same skill. */
  ghost predicate Valid(ss: seq<Skill>) {
    && (forall k :: 0 <= k < |ss| && ss[k].kind == Unset ==> ss[k].value == "")
    && (forall k :: 0 <= k < |ss| && ss[k].kind == Dropdown ==> ss[k].value in CommonSkills)
    && (forall k, l :: 0 <= k < l < |ss| && ss[k].kind == Dropdown && ss[l].kind == Dropdown ==> ss[k].value != ss[l].value)
  }

  /** The widget returns one of the options it offered. */
  ghost predicate ChoicesOffered(ss: seq<Skill>, choices: seq<string>)
    requires |choices| == |ss|
  {
    forall k :: 0 <= k < |ss| && ss[k].kind != Custom ==> choices[k] in OfferedAt(ss, choices, k)
  }

  lemma InitialValid()
    ensures Valid(InitialSkills)
  {
  }

  lemma AddKeepsValid(ss: seq<Skill>)
    requires Valid(ss)
    ensures Valid(AddSkill(ss))
  {
  }

  lemma RemoveKeepsValid(ss: seq<Skill>)
    requires Valid(ss)
    ensures Valid(RemoveSkill(ss))
  {
  }

  lemma UpdateCustomKeepsValid(ss: seq<Skill>, idx: nat, text: string)
    requires idx < |ss| && Valid(ss)
    ensures Valid(UpdateCustomSkill(ss, idx, text))
  {
    var r := UpdateCustomSkill(ss, idx, text);
    assert r[idx].kind != Dropdown ==> r[idx].kind == Custom || r[idx] == ss[idx];
  }

  /** Dropdown de-duplication: when every row picks from the options it was offered, the render
      keeps the rows well formed, so no skill is selected in two dropdowns. */
  lemma {:induction false} RowsKeepValid(ss: seq<Skill>, choices: seq<string>)
    requires |choices| == |ss| && Valid(ss) && ChoicesOffered(ss, choices)
    ensures Valid(Rows(ss, choices))
  {
    var r := Rows(ss, choices);
    forall k, l | 0 <= k < l < |ss| && r[k].kind == Dropdown && r[l].kind == Dropdown
      ensures r[k].value != r[l].value
    {
      var sel := DropdownValues(ss);
      var opts_k := Options(sel + ChosenBefore(ss, choices, k), ss[k].value);
      var opts_l := Options(sel + ChosenBefore(ss, choices, l), ss[l].value);
      assert choices[k] in opts_k[1..] by { assert choices[k] != SkillPlaceholder; }
      assert choices[l] in opts_l[1..] by { assert choices[l] != SkillPlaceholder; }
      ChosenBeforeGrows(ss, choices, k, l);
      assert choices[k] in ChosenBefore(ss, choices, l);
      if choices[l] == ss[l].value {
        assert ss[l].kind == Dropdown;
        assert ss[l].value in sel;
        if choices[k] == ss[k].value {
          assert ss[k].kind == Dropdown;
        }
      }
    }
  }

  /** A row's choice stays among the choices seen by every later row. */
  lemma {:induction false} ChosenBeforeGrows(ss: seq<Skill>, choices: seq<string>, k: nat, l: nat)
    requires k < l <= |ss| && |choices| == |ss| && ss[k].kind != Custom
    ensures choices[k] in ChosenBefore(ss, choices, l)
  {
  }

  /** `final_skills`: the values of the rows that are not blank, in row order. */
  function FinalSkills(ss: seq<Skill>): (r: seq<string>)
    ensures |r| <= |ss|
    ensures forall k :: 0 <= k < |r| ==> !IsBlank(r[k])
  {
    if |ss| == 0 then []
    else if IsBlank(ss[0].value) then FinalSkills(ss[1..])
    else [ss[0].value] + FinalSkills(ss[1..])
  }

  /** `final_skills` is computed row by row: it distributes over concatenation. */
  lemma {:induction false} FinalSkillsAppend(a: seq<Skill>, b: seq<Skill>)
    ensures FinalSkills(a + b) == FinalSkills(a) + FinalSkills(b)
  {
    if |a| > 0 {
      FinalSkillsAppend(a[1..], b);
      var ab := a + b;
      assert ab[0] == a[0] && ab[1..] == a[1..] + b;
      if IsBlank(a[0].value) {
        assert FinalSkills(ab) == FinalSkills(a[1..] + b);
      } else {
        assert FinalSkills(ab) == [a[0].value] + FinalSkills(a[1..] + b);
        assert FinalSkills(a) == [a[0].value] + FinalSkills(a[1..]);
      }
    } else {
      assert a + b == b;
    }
  }

  /** A value is in `final_skills` exactly when some row holds it and it is not blank. */
  lemma {:induction false} FinalSkillsMembers(ss: seq<Skill>)
    ensures forall x :: x in FinalSkills(ss) <==> !IsBlank(x) && exists k :: 0 <= k < |ss| && ss[k].value == x
  {
    if |ss| > 0 {
      FinalSkillsMembers(ss[1..]);
      assert forall k :: 1 <= k < |ss| ==> ss[k] == ss[1..][k - 1];
      forall x | !IsBlank(x) && (exists k :: 0 <= k < |ss| && ss[k].value == x)
        ensures x in FinalSkills(ss)
      {
        var k :| 0 <= k < |ss| && ss[k].value == x;
        if k > 0 { assert ss[1..][k - 1].value == x; }
      }
    }
  }

  /** Adding or removing an empty row does not change `final_skills`. */
  lemma AddKeepsFinalSkills(ss: seq<Skill>)
    ensures FinalSkills(AddSkill(ss)) == FinalSkills(ss)
  {
    FinalSkillsAppend(ss, [Blank]);
    assert FinalSkills([Blank]) == [];
  }

  /** A non-blank custom entry shows up, stripped, in `final_skills`. */
  lemma UpdateCustomReachesFinalSkills(ss: seq<Skill>, idx: nat, text: string)
    requires idx < |ss| && !IsBlank(text)
    ensures Strip(text) in FinalSkills(UpdateCustomSkill(ss, idx, text))
  {
    var r := UpdateCustomSkill(ss, idx, text);
    FinalSkillsMembers(r);
    assert r[idx].value == Strip(text);
  }

  /** As written, deselecting a dropdown skill leaves it in `final_skills`. */
  lemma DeselectKeepsStaleSkill()
    ensures var r := RowAsWritten(Skill("Python", Dropdown), SkillPlaceholder);
            r.kind == Unset && FinalSkills([r]) == ["Python"]
  {
    var r := RowAsWritten(Skill("Python", Dropdown), SkillPlaceholder);
    assert !IsBlank(r.value) by { assert !IsSpace(r.value[0]); }
  }

  /** As written, the stale value also defeats the de-duplication: a deselected "Python" row is
      still offered "Python" as its own value while another row holds it, so two dropdowns end
      up on the same skill. */
  lemma StaleSkillDuplicates()
    ensures var ss := [Skill("Python", Unset), Skill("Python", Dropdown)];
            var choices := ["Python", "Python"];
            && choices[0] in Options(DropdownValues(ss), ss[0].value)
            && choices[1] in Options(DropdownValues(ss) + [choices[0]], ss[1].value)
            && RowAsWritten(ss[0], choices[0]) == RowAsWritten(ss[1], choices[1]) == Skill("Python", Dropdown)
  {
    var ss := [Skill("Python", Unset), Skill("Python", Dropdown)];
    assert "Python" in CommonSkills;
    assert "Python" in Options(DropdownValues(ss), "Python")[1..];
    assert "Python" in Options(DropdownValues(ss) + ["Python"], "Python")[1..];
  }

  /** With the stale value cleared, deselecting removes the skill from `final_skills`. */
  lemma DeselectDropsSkill(skill: Skill)
    ensures FinalSkills([Row(skill, SkillPlaceholder)]) == []
  {
  }
}
