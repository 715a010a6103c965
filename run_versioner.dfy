/** The run number and the run folder name: the next run is one more than the largest number
    that `re.search(r'Run (\d+)', name)` finds among the existing output folders. */
module RunVersioner {
  import opened Wrappers
  import opened Text

  /** `Run ` followed by a digit starts at position i: where `Run (\d+)` can match. */
  predicate RunAt(s: string, i: nat) {
    i + 5 <= |s| && s[i..i + 4] == "Run " && IsDigit(s[i + 4])
  }

  /** The leftmost position at or after i where `Run (\d+)` matches. */
  function FindRun(s: string, i: nat): (r: Option<nat>)
    requires i <= |s|
    ensures r.Some? ==> i <= r.value && RunAt(s, r.value)
    ensures forall j :: i <= j && (r.None? || j < r.value) ==> !RunAt(s, j)
    decreases |s| - i
  {
    if i + 5 > |s| then None else if RunAt(s, i) then Some(i) else FindRun(s, i + 1)
  }

  /** `int(re.search(r'Run (\d+)', name).group(1))` when the search finds something:
      the digits after the first `Run `, taken greedily. */
  function RunNumberOf(name: string): Option<nat> {
    match FindRun(name, 0)
    case None => None
    case Some(i) =>
      var n := DigitRun(name, i + 4);
      DigitsInSlice(name, i + 4, i + 4 + n);
      Some(DecimalValue(name[i + 4..i + 4 + n]))
  }

  /** `max(run_numbers, default=0)` over the numbers found in the folder names. */
  function MaxRun(folders: seq<string>): nat
    decreases |folders|
  {
    if folders == [] then 0
    else
      var m := MaxRun(folders[..|folders| - 1]);
      match RunNumberOf(folders[|folders| - 1])
      case None => m
      case Some(n) => if n > m then n else m
  }

  /** `get_next_run_number`: at least 1 and beyond every run number already present. */
  function NextRunNumber(folders: seq<string>): (n: nat)
    ensures n >= 1
  {
    MaxRun(folders) + 1
  }

  /** The run folder: `f"Run {run_number} - {run_datetime}"`, the timestamp taken as given. */
  function RunFolderName(run: nat, timestamp: string): string {
    "Run " + NatToString(run) + " - " + timestamp
  }

  /** The largest number found, or 0 when no folder name has one. */
  lemma {:induction false} MaxRunSpec(folders: seq<string>)
    ensures forall i :: 0 <= i < |folders| && RunNumberOf(folders[i]).Some? ==>
              RunNumberOf(folders[i]).value <= MaxRun(folders)
    ensures MaxRun(folders) == 0 ||
              exists i :: 0 <= i < |folders| && RunNumberOf(folders[i]) == Some(MaxRun(folders))
    decreases |folders|
  {
    if folders != [] {
      var init := folders[..|folders| - 1];
      MaxRunSpec(init);
      assert forall i :: 0 <= i < |init| ==> init[i] == folders[i];
    }
  }

  /** The next number is one more than every number found, and one more than a number found
      (or 1 when there is none). */
  lemma NextRunNumberSpec(folders: seq<string>)
    ensures forall i :: 0 <= i < |folders| && RunNumberOf(folders[i]).Some? ==>
              RunNumberOf(folders[i]).value < NextRunNumber(folders)
    ensures NextRunNumber(folders) == 1 ||
              exists i :: 0 <= i < |folders| && RunNumberOf(folders[i]) == Some(NextRunNumber(folders) - 1)
  {
    MaxRunSpec(folders);
  }

  /** The order in which the folders are listed does not matter. */
  lemma NextRunIgnoresOrder(folders: seq<string>, listed: seq<string>)
    requires multiset(folders) == multiset(listed)
    ensures NextRunNumber(folders) == NextRunNumber(listed)
  {
    MaxRunSpec(folders);
    MaxRunSpec(listed);
    forall i | 0 <= i < |folders| ensures folders[i] in listed {
      assert folders[i] in multiset(listed);
    }
    forall i | 0 <= i < |listed| ensures listed[i] in folders {
      assert listed[i] in multiset(folders);
    }
  }

  /** A folder whose name has no `Run <digits>` is ignored, not an error. */
  lemma NonMatchingFolderIgnored(folders: seq<string>, name: string)
    requires RunNumberOf(name).None?
    ensures NextRunNumber(folders + [name]) == NextRunNumber(folders)
  {
    assert (folders + [name])[..|folders|] == folders;
  }

  /** The new run folder's name carries its run number: searching it gives the number back,
      whatever the timestamp. */
  lemma RunFolderNameRoundTrip(run: nat, timestamp: string)
    ensures RunNumberOf(RunFolderName(run, timestamp)) == Some(run)
  {
    var s := RunFolderName(run, timestamp);
    var d := NatToString(run);
    assert s == "Run " + (d + " - " + timestamp);
    assert s[0..4] == "Run " && s[4] == d[0];
    assert RunAt(s, 0);
    assert s[4..4 + |d|] == d;
    assert s[4 + |d|] == ' ';
    DigitsInSlice(s, 4, 4 + |d|);
    DigitRunIs(s, 4, |d|);
    assert FindRun(s, 0) == Some(0);
    assert RunNumberOf(s) == Some(DecimalValue(d));
    NatToStringRoundTrip(run);
  }

  /** Once the new run folder exists, the next run gets the following number. */
  lemma NextRunAfterNewFolder(folders: seq<string>, timestamp: string)
    ensures NextRunNumber(folders + [RunFolderName(NextRunNumber(folders), timestamp)])
         == NextRunNumber(folders) + 1
  {
    var name := RunFolderName(NextRunNumber(folders), timestamp);
    RunFolderNameRoundTrip(NextRunNumber(folders), timestamp);
    assert (folders + [name])[..|folders|] == folders;
  }

  /** With `Run 1 - ...` and `Run 3 - ...` present, in either order, the next run is 4. */
  lemma ExampleNextRun(t1: string, t2: string)
    ensures NextRunNumber([RunFolderName(1, t1), RunFolderName(3, t2)]) == 4
    ensures NextRunNumber([RunFolderName(3, t2), RunFolderName(1, t1)]) == 4
  {
    var one, three := RunFolderName(1, t1), RunFolderName(3, t2);
    RunFolderNameRoundTrip(1, t1);
    RunFolderNameRoundTrip(3, t2);
    assert [one][..0] == [] && [three][..0] == [];
    assert MaxRun([one]) == 1 && MaxRun([three]) == 3;
    assert [one, three][..1] == [one] && [three, one][..1] == [three];
    assert MaxRun([one, three]) == 3 && MaxRun([three, one]) == 3;
  }
}
