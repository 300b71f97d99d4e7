// The shell's variable store (shellmemory.c, in both the A1 starter code
// and the MyShell iteration): a fixed array of slots, each a variable name
// (or none) and up to MAX_VALUE_SIZE value strings. The two files store
// alike; the number of slots (MEM_SIZE in one, the build-time VAR_MEMSIZE
// in the other) is the constructor's parameter. Only the A1 file defines
// `match`; the MyShell file guards the store with a mutex, which this
// sequential model leaves out.

module ShellMemory {
  import opened Wrappers

  /** Slots of the A1 store. */
  const MEM_SIZE: nat := 1000
  /** Values a variable can hold. */
  const MAX_VALUE_SIZE: nat := 5
  /** What mem_get_value answers for an unknown variable. */
  const NOT_FOUND: string := "Variable does not exist"

  /** A slot's values when it holds none. */
  const NoValues: seq<Option<string>> := [None, None, None, None, None]

  // ---------------------------------------------------------------------
  // A slot's values: a run of strings followed by empty entries.
  // ---------------------------------------------------------------------

  /** The length of the leading run of present values of row. */
  function PrefixLen(row: seq<Option<string>>): (r: nat)
    ensures r <= |row|
    ensures forall k :: 0 <= k < r ==> row[k].Some?
    ensures r < |row| ==> row[r] == None
  {
    if |row| == 0 || row[0] == None then 0 else 1 + PrefixLen(row[1..])
  }

  /** The strings of a row whose entries are all present. */
  function Somes(row: seq<Option<string>>): (r: seq<string>)
    requires forall k :: 0 <= k < |row| ==> row[k].Some?
    ensures |r| == |row| && forall k :: 0 <= k < |row| ==> row[k] == Some(r[k])
  {
    seq(|row|, k requires 0 <= k < |row| => row[k].value)
  }

  /** The values a slot holds: the strings before its first empty entry. */
  function Values(row: seq<Option<string>>): seq<string> {
    Somes(row[..PrefixLen(row)])
  }

  /** No present value follows an empty entry. */
  ghost predicate Packed(row: seq<Option<string>>) {
    forall k :: PrefixLen(row) <= k < |row| ==> row[k] == None
  }

  /** The row mem_set_value writes for vals into a slot without values. */
  function Filled(vals: seq<string>): (r: seq<Option<string>>)
    ensures |r| == MAX_VALUE_SIZE
  {
    seq(MAX_VALUE_SIZE, k requires 0 <= k < MAX_VALUE_SIZE => if k < |vals| then Some(vals[k]) else None)
  }

  /** A row written by mem_set_value holds exactly the values it was given. */
  lemma ValuesFilled(vals: seq<string>)
    requires |vals| <= MAX_VALUE_SIZE
    ensures Packed(Filled(vals)) && Values(Filled(vals)) == vals
  {
    var row := Filled(vals);
    PrefixLenOf(row, |vals|);
    assert row[..|vals|] == seq(|vals|, k requires 0 <= k < |vals| => Some(vals[k]));
  }

  /** PrefixLen is the first empty index. */
  lemma {:induction false} PrefixLenOf(row: seq<Option<string>>, n: nat)
    requires n <= |row| && (forall k :: 0 <= k < n ==> row[k].Some?) && (n < |row| ==> row[n] == None)
    ensures PrefixLen(row) == n
  {
    if n > 0 {
      PrefixLenOf(row[1..], n - 1);
    }
  }

  /** mem_clear_value's effect: the leading run of values is emptied. */
  function ClearPrefix(row: seq<Option<string>>): (r: seq<Option<string>>)
    ensures |r| == |row|
    ensures forall k :: 0 <= k < |row| ==> r[k] == (if k < PrefixLen(row) then None else row[k])
  {
    seq(|row|, k requires 0 <= k < |row| => if k < PrefixLen(row) then None else row[k])
  }

  /** Clearing a packed row leaves no value behind. */
  lemma ClearPacked(row: seq<Option<string>>)
    requires |row| == MAX_VALUE_SIZE && Packed(row)
    ensures ClearPrefix(row) == NoValues
  {
  }

  /**
   * The strings in order with sep between neighbours: mem_get_value's
   * buffer is the values joined with " " (a space goes before every value
   * but the first).
   */
  function Join(ws: seq<string>, sep: string): string {
    if |ws| == 0 then ""
    else if |ws| == 1 then ws[0]
    else Join(ws[..|ws| - 1], sep) + sep + ws[|ws| - 1]
  }

  /** Joining from the front: the first string, sep, then the rest joined. */
  lemma {:induction false} JoinCons(w: string, ws: seq<string>, sep: string)
    requires |ws| >= 1
    ensures Join([w] + ws, sep) == w + sep + Join(ws, sep)
  {
    if |ws| > 1 {
      var front := ws[..|ws| - 1];
      assert ([w] + ws)[..|ws|] == [w] + front;
      JoinCons(w, front, sep);
    }
  }

  /** Joining one more value of a row: a separator first unless it is the first. */
  lemma JoinStep(row: seq<Option<string>>, i: nat, sep: string)
    requires i < PrefixLen(row)
    ensures Join(Somes(row[..i + 1]), sep) == (if i == 0 then "" else Join(Somes(row[..i]), sep) + sep) + row[i].value
  {
    var ws := Somes(row[..i + 1]);
    assert ws[..i] == Somes(row[..i]);
    assert ws[i] == row[i].value;
  }

  // ---------------------------------------------------------------------
  // Searches over the names.
  // ---------------------------------------------------------------------

  /**
   * mem_get_variable_index from slot i on: the first slot named v, or -1
   * once an unnamed slot or the end is reached first.
   */
  function LookupFrom(ns: seq<Option<string>>, v: string, i: nat): (r: int)
    requires i <= |ns|
    decreases |ns| - i
    ensures r == -1 || i <= r < |ns|
    ensures r >= 0 ==> ns[r] == Some(v) && forall j :: i <= j < r ==> ns[j].Some? && ns[j] != Some(v)
    ensures r == -1 ==> forall j :: i <= j < |ns| && (forall k :: i <= k <= j ==> ns[k].Some?) ==> ns[j] != Some(v)
  {
    if i == |ns| then -1
    else if ns[i] == None then -1
    else if ns[i] == Some(v) then i
    else LookupFrom(ns, v, i + 1)
  }

  function Lookup(ns: seq<Option<string>>, v: string): int {
    LookupFrom(ns, v, 0)
  }

  /**
   * mem_set_value's slot for v from slot i on: the first slot that is
   * unnamed or named v, or -1 when every slot holds another name.
   */
  function SetTargetFrom(ns: seq<Option<string>>, v: string, i: nat): (r: int)
    requires i <= |ns|
    decreases |ns| - i
    ensures r == -1 || i <= r < |ns|
    ensures r >= 0 ==> (ns[r] == None || ns[r] == Some(v)) && forall j :: i <= j < r ==> ns[j].Some? && ns[j] != Some(v)
    ensures r == -1 <==> forall j :: i <= j < |ns| ==> ns[j].Some? && ns[j] != Some(v)
  {
    if i == |ns| then -1
    else if ns[i] == None || ns[i] == Some(v) then i
    else SetTargetFrom(ns, v, i + 1)
  }

  function SetTarget(ns: seq<Option<string>>, v: string): int {
    SetTargetFrom(ns, v, 0)
  }

  // ---------------------------------------------------------------------
  // The store invariant.
  // ---------------------------------------------------------------------

  /**
   * Named slots form a prefix, no name occurs twice, every row has
   * MAX_VALUE_SIZE entries with its values first, and an unnamed slot holds
   * no values.
   */
  ghost predicate StoreInv(ns: seq<Option<string>>, vs: seq<seq<Option<string>>>) {
    && |ns| == |vs|
    && (forall i :: 0 <= i < |vs| ==> |vs[i]| == MAX_VALUE_SIZE && Packed(vs[i]))
    && (forall i :: 0 <= i < |ns| && ns[i] == None ==> vs[i] == NoValues)
    && (forall i, j :: 0 <= i < j < |ns| && ns[i] == None ==> ns[j] == None)
    && (forall i, j :: 0 <= i < j < |ns| && ns[i].Some? ==> ns[i] != ns[j])
  }

  /** With named slots forming a prefix, -1 from the lookup means absent. */
  lemma LookupAbsent(ns: seq<Option<string>>, vs: seq<seq<Option<string>>>, v: string)
    requires StoreInv(ns, vs)
    ensures 0 <= Lookup(ns, v) <==> Some(v) in ns
    ensures forall j :: 0 <= j < |ns| && ns[j] == Some(v) ==> Lookup(ns, v) == j
  {
    forall j | 0 <= j < |ns| && ns[j] == Some(v)
      ensures Lookup(ns, v) == j
    {
      assert forall k :: 0 <= k <= j ==> ns[k].Some?;
    }
  }

  /** The names after setting v. */
  function SetNames(ns: seq<Option<string>>, v: string): (r: seq<Option<string>>) {
    var t := SetTarget(ns, v);
    if t == -1 then ns else ns[t := Some(v)]
  }

  /** The value rows after setting v to vals. */
  function SetRows(ns: seq<Option<string>>, vs: seq<seq<Option<string>>>, v: string, vals: seq<string>): (r: seq<seq<Option<string>>>)
    requires |ns| == |vs|
  {
    var t := SetTarget(ns, v);
    if t == -1 then vs else vs[t := Filled(vals)]
  }

  /** mem_set_value keeps the store invariant. */
  lemma SetKeepsInv(ns: seq<Option<string>>, vs: seq<seq<Option<string>>>, v: string, vals: seq<string>)
    requires StoreInv(ns, vs) && |vals| <= MAX_VALUE_SIZE
    ensures StoreInv(SetNames(ns, v), SetRows(ns, vs, v, vals))
  {
    ValuesFilled(vals);
    var t := SetTarget(ns, v);
    if t >= 0 {
      var ns' := SetNames(ns, v);
      forall i, j | 0 <= i < j < |ns'| && ns'[i].Some?
        ensures ns'[i] != ns'[j]
      {
        if j == t && ns[t] == None {
          assert ns[i].Some?;
        }
        if i == t && ns[t] == None {
          assert ns[j] == None;
        }
      }
    }
  }

  /**
   * Getting after setting: the variable is found in the slot it was
   * written to, holds exactly the new values, and every other variable is
   * found where it was, with the row it had.
   */
  lemma SetThenLookup(ns: seq<Option<string>>, vs: seq<seq<Option<string>>>, v: string, vals: seq<string>, w: string)
    requires StoreInv(ns, vs) && |vals| <= MAX_VALUE_SIZE
    ensures var t, ns', vs' := SetTarget(ns, v), SetNames(ns, v), SetRows(ns, vs, v, vals);
            && (t >= 0 ==> Lookup(ns', v) == t && Values(vs'[t]) == vals)
            && (w != v ==> Lookup(ns', w) == Lookup(ns, w)
                           && (Lookup(ns, w) >= 0 ==> vs'[Lookup(ns, w)] == vs[Lookup(ns, w)]))
  {
    var t, ns', vs' := SetTarget(ns, v), SetNames(ns, v), SetRows(ns, vs, v, vals);
    SetKeepsInv(ns, vs, v, vals);
    ValuesFilled(vals);
    LookupAbsent(ns, vs, w);
    LookupAbsent(ns', vs', w);
    if t >= 0 {
      assert ns'[t] == Some(v) && vs'[t] == Filled(vals);
      LookupAbsent(ns', vs', v);
    }
    if w != v {
      if Some(w) in ns {
        var j :| 0 <= j < |ns| && ns[j] == Some(w);
        assert ns'[j] == Some(w);
      } else {
        assert Some(w) !in ns';
      }
    }
  }

  // ---------------------------------------------------------------------
  // match.
  // ---------------------------------------------------------------------

  /**
   * match: 1 when model agrees with var on each of var's characters, 0
   * otherwise. Positions past model's end never agree (model's terminator
   * differs from any character of var).
   */
  method Match(model: string, var_: string) returns (r: int)
    ensures r == 0 || r == 1
    ensures r == 1 <==> |var_| <= |model| && model[..|var_|] == var_
  {
    var i := 0;
    var matchCount := 0;
    while i < |var_|
      invariant 0 <= matchCount <= i <= |var_|
      invariant matchCount == i <==> i <= |model| && model[..i] == var_[..i]
    {
      if i < |model| && model[i] == var_[i] {
        matchCount := matchCount + 1;
      }
      if matchCount == i + 1 {
        assert model[..i + 1] == model[..i] + [model[i]];
        assert var_[..i + 1] == var_[..i] + [var_[i]];
      } else if i + 1 <= |model| && model[..i + 1] == var_[..i + 1] {
        assert model[..i] == model[..i + 1][..i];
        assert var_[..i] == var_[..i + 1][..i];
        assert model[i] == model[..i + 1][i];
      }
      i := i + 1;
    }
    assert var_[..i] == var_;
    if matchCount == |var_| {
      r := 1;
    } else {
      r := 0;
    }
  }

  // ---------------------------------------------------------------------
  // The store.
  // ---------------------------------------------------------------------

  class Store {
    /** shellmemory[i].var */
    const names: array<Option<string>>
    /** shellmemory[i].value */
    const values: array<seq<Option<string>>>

    ghost predicate Valid()
      reads this, names, values
    {
      StoreInv(names[..], values[..])
    }

    /** mem_init: every slot unnamed and without values. */
    constructor Init(capacity: nat)
      ensures Valid() && names.Length == capacity
      ensures forall i :: 0 <= i < capacity ==> names[i] == None && values[i] == NoValues
    {
      names := new Option<string>[capacity];
      values := new seq<Option<string>>[capacity];
      new;
      var memIdx := 0;
      while memIdx < capacity
        invariant 0 <= memIdx <= capacity
        invariant forall i :: 0 <= i < memIdx ==> names[i] == None && values[i] == NoValues
      {
        names[memIdx] := None;
        values[memIdx] := NoValues;
        memIdx := memIdx + 1;
      }
    }

    /**
     * mem_clear_value: empties the entries of slot memIdx up to its first
     * empty one.
     */
    method ClearValue(memIdx: nat)
      requires memIdx < values.Length && |values[memIdx]| == MAX_VALUE_SIZE
      modifies values
      ensures values[..] == old(values[..])[memIdx := ClearPrefix(old(values[memIdx]))]
    {
      ghost var row := values[memIdx];
      var valIdx := 0;
      while valIdx < MAX_VALUE_SIZE && values[memIdx][valIdx] != None
        invariant 0 <= valIdx <= PrefixLen(row)
        invariant values[..] == old(values[..])[memIdx := values[memIdx]]
        invariant values[memIdx] == seq(MAX_VALUE_SIZE, k requires 0 <= k < MAX_VALUE_SIZE => if k < valIdx then None else row[k])
      {
        values[memIdx] := values[memIdx][valIdx := None];
        valIdx := valIdx + 1;
      }
      assert values[memIdx] == ClearPrefix(row);
    }

    /**
     * The write half of mem_set_value: slot memIdx gets the name and, once
     * its old values are cleared, the new ones.
     */
    method WriteSlot(memIdx: nat, varIn: string, valuesIn: seq<string>)
      requires memIdx < names.Length == values.Length && |valuesIn| <= MAX_VALUE_SIZE
      requires |values[memIdx]| == MAX_VALUE_SIZE && Packed(values[memIdx])
      requires names[memIdx] == None ==> values[memIdx] == NoValues
      requires names[memIdx] == None || names[memIdx] == Some(varIn)
      modifies names, values
      ensures names[..] == old(names[..])[memIdx := Some(varIn)]
      ensures values[..] == old(values[..])[memIdx := Filled(valuesIn)]
    {
      if names[memIdx] == None {
        names[memIdx] := Some(varIn);
      } else {
        ClearValue(memIdx);
        ClearPacked(old(values[memIdx]));
      }
      assert values[memIdx] == Filled(valuesIn[..0]);
      var valIdx := 0;
      while valIdx < |valuesIn|
        invariant 0 <= valIdx <= |valuesIn|
        invariant names[..] == old(names[..])[memIdx := Some(varIn)]
        invariant values[..] == old(values[..])[memIdx := values[memIdx]]
        invariant values[memIdx] == Filled(valuesIn[..valIdx])
      {
        values[memIdx] := values[memIdx][valIdx := Some(valuesIn[valIdx])];
        assert values[memIdx] == Filled(valuesIn[..valIdx + 1]);
        valIdx := valIdx + 1;
      }
      assert valuesIn[..valIdx] == valuesIn;
    }

    /**
     * mem_set_value: v goes to the first slot that is unnamed or already
     * named v, with exactly the given values; a store whose slots all hold
     * other names is left as it is.
     */
    method SetValue(varIn: string, valuesIn: seq<string>)
      requires Valid() && |valuesIn| <= MAX_VALUE_SIZE
      modifies names, values
      ensures Valid()
      ensures names[..] == SetNames(old(names[..]), varIn)
      ensures values[..] == SetRows(old(names[..]), old(values[..]), varIn, valuesIn)
    {
      SetKeepsInv(names[..], values[..], varIn, valuesIn);
      var memIdx := 0;
      while memIdx < names.Length
        invariant 0 <= memIdx <= names.Length
        invariant names[..] == old(names[..]) && values[..] == old(values[..])
        invariant SetTarget(names[..], varIn) == SetTargetFrom(names[..], varIn, memIdx)
      {
        if names[memIdx] == None || names[memIdx] == Some(varIn) {
          WriteSlot(memIdx, varIn, valuesIn);
          break;
        }
        memIdx := memIdx + 1;
      }
    }

    /**
     * mem_get_variable_index: the slot named v, or -1 when an unnamed slot
     * or the end comes first.
     */
    method GetVariableIndex(varIn: string) returns (r: int)
      ensures r == Lookup(names[..], varIn)
    {
      var memIdx := 0;
      while memIdx < names.Length
        invariant 0 <= memIdx <= names.Length
        invariant Lookup(names[..], varIn) == LookupFrom(names[..], varIn, memIdx)
      {
        if names[memIdx] == None {
          return -1;
        }
        if names[memIdx] == Some(varIn) {
          return memIdx;
        }
        memIdx := memIdx + 1;
      }
      return -1;
    }

    /**
     * mem_get_value: "Variable does not exist" for an unknown variable,
     * otherwise its values joined by single spaces.
     */
    method GetValue(varIn: string) returns (buffer: string)
      requires Valid()
      ensures Lookup(names[..], varIn) == -1 ==> buffer == NOT_FOUND
      ensures Lookup(names[..], varIn) >= 0 ==> buffer == Join(Values(values[Lookup(names[..], varIn)]), " ")
    {
      buffer := NOT_FOUND;
      var memIdx := GetVariableIndex(varIn);
      if memIdx > -1 {
        buffer := "";
        ghost var row := values[memIdx];
        var valIdx := 0;
        while valIdx < MAX_VALUE_SIZE && values[memIdx][valIdx] != None
          invariant 0 <= valIdx <= PrefixLen(row)
          invariant buffer == Join(Somes(row[..valIdx]), " ")
        {
          JoinStep(row, valIdx, " ");
          if valIdx != 0 {
            buffer := buffer + " ";
          }
          buffer := buffer + values[memIdx][valIdx].value;
          valIdx := valIdx + 1;
        }
        assert row[..valIdx] == row[..PrefixLen(row)];
      }
    }
  }
}
