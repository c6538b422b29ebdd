// The actions of an alarm trigger: how they are written into its URL (apmec/mem/monitor.py,
// update_mea_with_alarm) and what the plugin makes of them when the alarm fires
// (apmec/mem/plugin.py, _validate_alarming_policy and _handle_mea_monitoring).
module AlarmActions {
  import opened Wrappers
  import opened Text
  import opened AlarmUrl

  datatype Policy = Policy(name: string, kind: string)

  const SCALING := "tosca.policies.apmec.Scaling"
  const DEFAULT_ALARM_ACTIONS: set<string> := {"respawn", "log", "log_and_kill", "notify"}

  // Known default actions that cannot be mistaken for composite or refactored ones.
  predicate Simple(known: set<string>) {
    forall action | action in known :: Free(action, '%') && Free(action, '-')
  }

  lemma DefaultActionsAreSimple()
    ensures Simple(DEFAULT_ALARM_ACTIONS)
  {
  }

  // The first policy of that name; an empty name does not filter.
  function Find(policies: seq<Policy>, name: string): Option<Policy> {
    if policies == [] then None
    else if name == "" || policies[0].name == name then Some(policies[0])
    else Find(policies[1..], name)
  }

  // ---- Writing ----

  function Direction(comparison: string): string {
    if comparison == "gt" then "out" else "in"
  }

  predicate IsScaling(policies: seq<Policy>, action: string) {
    Find(policies, action).Some? && Find(policies, action).value.kind == SCALING
  }

  function Refactor(policies: seq<Policy>, comparison: string, action: string): string {
    if IsScaling(policies, action) then action + "-" + Direction(comparison) else action
  }

  function RefactorAll(policies: seq<Policy>, comparison: string, actions: seq<string>): (r: seq<string>)
    ensures |r| == |actions|
  {
    seq(|actions|, i requires 0 <= i < |actions| => Refactor(policies, comparison, actions[i]))
  }

  // A scaling policy's name gets its direction, out for gt and in for every other comparison.
  predicate Written(policies: seq<Policy>, comparison: string, actions: seq<string>, written: seq<string>) {
    && |written| == |actions|
    && forall i | 0 <= i < |actions| ::
         written[i] == actions[i] + if !IsScaling(policies, actions[i]) then ""
                                    else if comparison == "gt" then "-out" else "-in"
  }

  lemma RefactorSpelt(policies: seq<Policy>, comparison: string, actions: seq<string>)
    ensures Written(policies, comparison, actions, RefactorAll(policies, comparison, actions))
  {
    forall i | 0 <= i < |actions|
      ensures RefactorAll(policies, comparison, actions)[i]
              == actions[i] + if !IsScaling(policies, actions[i]) then ""
                              else if comparison == "gt" then "-out" else "-in"
    {
      assert actions[i] + "-" + "out" == actions[i] + "-out" && actions[i] + "-" + "in" == actions[i] + "-in";
    }
  }

  class AlarmTrigger {
    const name: string
    const comparison: string
    var actions: seq<string>

    constructor (name: string, comparison: string, actions: seq<string>)
      ensures this.name == name && this.comparison == comparison && this.actions == actions
    {
      this.name := name;
      this.comparison := comparison;
      this.actions := actions;
    }

    // The composite action name. The list of actions is rewritten in place.
    method ActionName(policies: seq<Policy>) returns (name: Option<string>)
      modifies this`actions
      ensures actions == RefactorAll(policies, comparison, old(actions))
      ensures Written(policies, comparison, old(actions), actions)
      ensures name == if actions == [] then None else Some(Join(actions, '%'))
    {
      if |actions| == 0 {
        return None;
      }
      var i := 0;
      while i < |actions|
        invariant 0 <= i <= |actions| == |old(actions)|
        invariant forall k | 0 <= k < i :: actions[k] == Refactor(policies, comparison, old(actions)[k])
        invariant forall k | i <= k < |actions| :: actions[k] == old(actions)[k]
      {
        var found := Find(policies, actions[i]);
        if found.Some? && found.value.kind == SCALING {
          var scalingType := if comparison == "gt" then "out" else "in";
          actions := actions[i := actions[i] + "-" + scalingType];
        }
        i := i + 1;
      }
      assert actions == RefactorAll(policies, comparison, old(actions));
      RefactorSpelt(policies, comparison, old(actions));
      return Some(Join(actions, '%'));
    }
  }

  // How many triggers come before the first without actions.
  function Served(lists: seq<seq<string>>): (n: nat)
    ensures n <= |lists|
    ensures forall i | 0 <= i < n :: lists[i] != []
    ensures n < |lists| ==> lists[n] == []
  {
    if lists == [] || lists[0] == [] then 0 else 1 + Served(lists[1..])
  }

  // The URL of a trigger with these actions.
  function UrlOf(policies: seq<Policy>, host: string, port: string, mea: string, trigger: AlarmTrigger,
                 actions: seq<string>, key: string): string
    requires actions != []
  {
    CreateAlarmUrl(host, port, mea, trigger.name, Join(RefactorAll(policies, trigger.comparison, actions), '%'), key)
  }

  // The URLs of the first k triggers, when these are their actions.
  ghost predicate Recorded(urls: map<string, string>, policies: seq<Policy>, host: string, port: string, mea: string,
                           triggers: seq<AlarmTrigger>, lists: seq<seq<string>>, keys: seq<string>, k: nat)
    requires k <= |triggers| == |lists| == |keys| && forall i | 0 <= i < k :: lists[i] != []
  {
    && (forall name :: name in urls <==> exists i :: 0 <= i < k && triggers[i].name == name)
    && (forall i | 0 <= i < k ::
          urls[triggers[i].name] == UrlOf(policies, host, port, mea, triggers[i], lists[i], keys[i]))
  }

  ghost predicate DistinctNames(triggers: seq<AlarmTrigger>) {
    forall i, j | 0 <= i < j < |triggers| :: triggers[i].name != triggers[j].name
  }

  lemma RecordOne(urls: map<string, string>, policies: seq<Policy>, host: string, port: string, mea: string,
                  triggers: seq<AlarmTrigger>, lists: seq<seq<string>>, keys: seq<string>, k: nat, name: string)
    requires k < |triggers| == |lists| == |keys| && forall i | 0 <= i <= k :: lists[i] != []
    requires DistinctNames(triggers) && Recorded(urls, policies, host, port, mea, triggers, lists, keys, k)
    requires name == Join(RefactorAll(policies, triggers[k].comparison, lists[k]), '%')
    ensures Recorded(urls[triggers[k].name := CreateAlarmUrl(host, port, mea, triggers[k].name, name, keys[k])],
                     policies, host, port, mea, triggers, lists, keys, k + 1)
  {
  }

  // The lists of the first k triggers are rewritten, the others are as they were.
  ghost predicate RewrittenUpTo(policies: seq<Policy>, triggers: seq<AlarmTrigger>, lists: seq<seq<string>>, k: nat)
    requires |lists| == |triggers|
    reads triggers
  {
    forall i | 0 <= i < |triggers| ::
      triggers[i].actions == if i < k then RefactorAll(policies, triggers[i].comparison, lists[i]) else lists[i]
  }

  method NameActions(policies: seq<Policy>, triggers: seq<AlarmTrigger>, k: nat, ghost lists: seq<seq<string>>)
    returns (name: Option<string>)
    requires k < |triggers| == |lists| && DistinctNames(triggers) && RewrittenUpTo(policies, triggers, lists, k)
    modifies triggers[k]
    ensures RewrittenUpTo(policies, triggers, lists, if name.Some? then k + 1 else k)
    ensures name == if lists[k] == [] then None
                    else Some(Join(RefactorAll(policies, triggers[k].comparison, lists[k]), '%'))
  {
    assert forall i | 0 <= i < |triggers| && i != k :: triggers[i] != triggers[k];
    name := triggers[k].ActionName(policies);
  }

  // One turn of the loop over the triggers.
  method RecordTrigger(policies: seq<Policy>, host: string, port: string, mea: string, triggers: seq<AlarmTrigger>,
                       keys: seq<string>, ghost lists: seq<seq<string>>, k: nat, urls: map<string, string>)
    returns (r: Option<map<string, string>>)
    requires k < |triggers| == |lists| == |keys| && DistinctNames(triggers) && k <= Served(lists)
    requires RewrittenUpTo(policies, triggers, lists, k)
    requires Recorded(urls, policies, host, port, mea, triggers, lists, keys, k)
    modifies triggers[k]
    ensures r.Some? <==> k < Served(lists)
    ensures RewrittenUpTo(policies, triggers, lists, if r.Some? then k + 1 else k)
    ensures r.Some? ==> Recorded(r.value, policies, host, port, mea, triggers, lists, keys, k + 1)
  {
    var name := NameActions(policies, triggers, k, lists);
    if name.None? {
      return None;
    }
    RecordOne(urls, policies, host, port, mea, triggers, lists, keys, k, name.value);
    return Some(urls[triggers[k].name := CreateAlarmUrl(host, port, mea, triggers[k].name, name.value, keys[k])]);
  }

  // All the triggers of an MEA, `lists` being their actions. A trigger without any ends the loop
  // and drops every URL, but the lists rewritten before it stay rewritten.
  method UpdateMeaWithAlarm(policies: seq<Policy>, host: string, port: string, mea: string, triggers: seq<AlarmTrigger>,
                            keys: seq<string>, ghost lists: seq<seq<string>>)
    returns (urls: Option<map<string, string>>)
    requires |keys| == |triggers| == |lists| && DistinctNames(triggers)
    requires RewrittenUpTo(policies, triggers, lists, 0)
    modifies triggers
    ensures RewrittenUpTo(policies, triggers, lists, Served(lists))
    ensures urls.Some? <==> Served(lists) == |lists|
    ensures urls.Some? ==> Recorded(urls.value, policies, host, port, mea, triggers, lists, keys, |triggers|)
  {
    var found: map<string, string> := map[];
    for k := 0 to |triggers|
      invariant k <= Served(lists) && RewrittenUpTo(policies, triggers, lists, k)
      invariant Recorded(found, policies, host, port, mea, triggers, lists, keys, k)
    {
      var longer := RecordTrigger(policies, host, port, mea, triggers, keys, lists, k, found);
      if longer.None? {
        return None;
      }
      found := longer.value;
    }
    return Some(found);
  }

  // ---- Writing again ----

  // The first policy of this name is for scaling.
  predicate NamesScaling(policies: seq<Policy>, name: string) {
    exists k | 0 <= k < |policies| ::
      policies[k].name == name && policies[k].kind == SCALING && forall j | 0 <= j < k :: policies[j].name != name
  }

  // The policy found is the first of the name, or the first of all where the name is empty.
  ghost predicate IsFirst(policies: seq<Policy>, name: string, policy: Policy) {
    exists k | 0 <= k < |policies| ::
      policies[k] == policy && (name == "" || policy.name == name)
      && forall j | 0 <= j < k :: name != "" && policies[j].name != name
  }

  lemma {:induction false} FindsFirst(policies: seq<Policy>, name: string, policy: Policy)
    ensures Find(policies, name) == Some(policy) <==> IsFirst(policies, name, policy)
    ensures Find(policies, name) == None <==> forall k | 0 <= k < |policies| :: name != "" && policies[k].name != name
  {
    if policies != [] {
      FindsFirst(policies[1..], name, policy);
      assert forall k | 0 < k < |policies| :: policies[k] == policies[1..][k - 1];
      assert forall k | 0 <= k < |policies| - 1 :: policies[1..][k] == policies[k + 1];
      if name == "" || policies[0].name == name {
        assert policies[0] == policy ==> IsFirst(policies, name, policy);
      } else {
        FirstOfRest(policies, name, policy);
      }
    }
  }

  lemma FirstOfRest(policies: seq<Policy>, name: string, policy: Policy)
    requires policies != [] && name != "" && policies[0].name != name
    ensures IsFirst(policies, name, policy) <==> IsFirst(policies[1..], name, policy)
  {
    if IsFirst(policies[1..], name, policy) {
      var k :| 0 <= k < |policies[1..]| && policies[1..][k] == policy && policy.name == name
               && forall j | 0 <= j < k :: policies[1..][j].name != name;
      assert policies[k + 1] == policy;
      assert forall j | 0 < j < k + 1 :: policies[j] == policies[1..][j - 1];
    }
    if IsFirst(policies, name, policy) {
      var k :| 0 <= k < |policies| && policies[k] == policy && policy.name == name
               && forall j | 0 <= j < k :: policies[j].name != name;
      assert policies[1..][k - 1] == policy;
    }
  }

  lemma {:induction false} ScalingByName(policies: seq<Policy>, name: string)
    requires name != ""
    ensures IsScaling(policies, name) <==> NamesScaling(policies, name)
  {
    if policies != [] && policies[0].name != name {
      ScalingByName(policies[1..], name);
      assert forall k | 0 < k < |policies| :: policies[k] == policies[1..][k - 1];
      assert forall k | 0 <= k < |policies| - 1 :: policies[1..][k] == policies[k + 1];
    }
  }

  // The list keeps its refactored names, so writing the URL once more refactors again those for
  // which there is a scaling policy by the refactored name, and no others: they get a second
  // direction.
  lemma SecondDirectionExactly(policies: seq<Policy>, comparison: string, actions: seq<string>, i: nat)
    requires i < |actions|
    ensures var suffix := "-" + Direction(comparison);
            var once := RefactorAll(policies, comparison, actions);
            var twice := RefactorAll(policies, comparison, once);
            if IsScaling(policies, actions[i]) && NamesScaling(policies, actions[i] + suffix)
            then twice[i] == actions[i] + suffix + suffix && twice != once
            else twice[i] == once[i]
  {
    var suffix := "-" + Direction(comparison);
    var a := actions[i];
    assert a + "-" + Direction(comparison) == a + suffix;
    ScalingByName(policies, a + suffix);
    if IsScaling(policies, a) && NamesScaling(policies, a + suffix) {
      assert a + suffix + "-" + Direction(comparison) == a + suffix + suffix;
      assert |a + suffix + suffix| > |a + suffix|;
    }
  }

  // Policies SP1 and SP1-out: the second time SP1 has become SP1-out-out.
  lemma SecondDirectionAdded()
    ensures var policies := [Policy("SP1", SCALING), Policy("SP1-out", SCALING)];
            var once := RefactorAll(policies, "gt", ["SP1"]);
            once == ["SP1-out"] && RefactorAll(policies, "gt", once) == ["SP1-out-out"]
  {
    var policies := [Policy("SP1", SCALING), Policy("SP1-out", SCALING)];
    assert "SP1" + "-" + "out" == "SP1-out" && "SP1-out" + "-" + "out" == "SP1-out-out";
    assert policies[1..] == [Policy("SP1-out", SCALING)];
    assert Find(policies, "SP1") == Some(policies[0]);
    assert "SP1"[..3] == "SP1" && |"SP1"| != |"SP1-out"|;
    assert Find(policies[1..], "SP1-out") == Some(policies[1]);
    assert Find(policies, "SP1-out") == Some(policies[1]);
  }

  // ---- Through the URL ----

  lemma {:induction false} FreeHasNoEscape(s: string)
    requires Free(s, '%')
    ensures !HasEscape(s)
  {
    if s != "" {
      FreeHasNoEscape(s[1..]);
    }
  }

  lemma {:induction false} EscapeAfter(a: string, t: string)
    requires Free(a, '%')
    ensures HasEscape(a + ['%'] + t) <==> StartsWithHex(t) || HasEscape(t)
  {
    var s := a + ['%'] + t;
    if a == "" {
      assert s[1..] == t;
    } else {
      EscapeAfter(a[1..], t);
      assert s[1..] == a[1..] + ['%'] + t;
    }
  }

  lemma JoinStart(actions: seq<string>)
    requires |actions| > 0
    ensures StartsWithHex(Join(actions, '%')) <==> StartsWithHex(actions[0])
  {
  }

  // An action after the first starts with two hexadecimal digits.
  predicate LaterHex(actions: seq<string>) {
    exists k | 1 <= k < |actions| :: StartsWithHex(actions[k])
  }

  // In a list of actions without percent signs, an escape can only come from a separator
  // followed by an action that starts with two hexadecimal digits.
  lemma {:induction false} EscapesExactly(actions: seq<string>)
    requires |actions| > 0 && AllFree(actions, '%')
    ensures HasEscape(Join(actions, '%')) <==> LaterHex(actions)
  {
    if |actions| == 1 {
      FreeHasNoEscape(actions[0]);
    } else {
      var rest := actions[1..];
      EscapesExactly(rest);
      EscapeAfter(actions[0], Join(rest, '%'));
      JoinStart(rest);
      assert forall k | 1 <= k < |actions| :: actions[k] == rest[k - 1];
      assert forall k | 1 <= k < |rest| :: rest[k] == actions[k + 1];
    }
  }

  // The receiver reads the trigger's name and, once split, its actions.
  ghost predicate Recovers(url: string, mea: string, trigger: string, actions: seq<string>, key: string)
    requires IsHttp(url)
  {
    exists action :: Received(url) == Some(Segments(mea, trigger, action, key)) && Split(action, '%') == actions
  }

  // All names are free of / ? # (and the key of a semicolon), the actions also of %, and no
  // action after the first starts with two hexadecimal digits.
  ghost predicate Transparent(mea: string, trigger: string, actions: seq<string>, key: string) {
    && Plain(mea) && Plain(trigger) && Plain(key) && Free(key, ';')
    && AllPlain(actions) && AllFree(actions, '%') && !LaterHex(actions)
  }

  predicate AllPlain(actions: seq<string>) {
    forall i | 0 <= i < |actions| :: Plain(actions[i])
  }

  lemma PlainJoin(actions: seq<string>)
    requires |actions| > 0
    ensures Plain(Join(actions, '%')) <==> AllPlain(actions)
  {
    JoinHolds(actions, '%', '/');
    JoinHolds(actions, '%', '?');
    JoinHolds(actions, '%', '#');
  }

  lemma TransparentIsClean(mea: string, trigger: string, actions: seq<string>, key: string)
    requires |actions| > 0
    ensures Transparent(mea, trigger, actions, key)
            <==> Clean(Segments(mea, trigger, Join(actions, '%'), key)) && AllFree(actions, '%')
  {
    SegmentsPlain(mea, trigger, Join(actions, '%'), key);
    PlainJoin(actions);
    if AllFree(actions, '%') {
      EscapesExactly(actions);
    }
  }

  lemma SegmentsPlain(mea: string, trigger: string, action: string, key: string)
    ensures Clean(Segments(mea, trigger, action, key))
            <==> Plain(mea) && Plain(trigger) && Plain(action) && Plain(key) && Free(key, ';') && !HasEscape(action)
  {
    var segments := Segments(mea, trigger, action, key);
    assert Plain(segments[0]) && Plain(segments[1]) && Plain(segments[2]);
    assert segments[3] == mea && segments[4] == trigger && segments[5] == action && segments[6] == key;
  }

  // Trigger and actions come back from the URL exactly when all of that holds.
  lemma ActionsRecoveredExactly(host: string, port: string, mea: string, trigger: string, actions: seq<string>,
                                key: string)
    requires Plain(host) && Plain(port) && |actions| > 0
    ensures var url := CreateAlarmUrl(host, port, mea, trigger, Join(actions, '%'), key);
            IsHttp(url) && (Recovers(url, mea, trigger, actions, key) <==> Transparent(mea, trigger, actions, key))
  {
    var joined := Join(actions, '%');
    var url := CreateAlarmUrl(host, port, mea, trigger, joined, key);
    ReadBackExactly(host, port, mea, trigger, joined, key);
    TransparentIsClean(mea, trigger, actions, key);
    SplitJoinExactly(actions, '%');
    forall action | Split(action, '%') == actions ensures action == joined {
      JoinSplit(action, '%');
    }
  }

  // ---- Reading ----

  // The policy an action stands for, by its name or by the name before a single hyphen; in
  // the second case with what follows the hyphen.
  function Resolve(policies: seq<Policy>, action: string): Option<(Policy, Option<string>)> {
    match Find(policies, action)
    case Some(policy) => Some((policy, None))
    case None =>
      var parts := Split(action, '-');
      if |parts| == 2 && Find(policies, parts[0]).Some?
      then Some((Find(policies, parts[0]).value, Some(parts[1])))
      else None
  }

  function AsSeq<T>(o: Option<T>): seq<T> {
    match o
    case None => []
    case Some(x) => [x]
  }

  function Defaults(known: set<string>, actions: seq<string>): seq<string> {
    if actions == [] then []
    else (if actions[0] in known then [actions[0]] else []) + Defaults(known, actions[1..])
  }

  function Customs(policies: seq<Policy>, actions: seq<string>): seq<(Policy, Option<string>)> {
    if actions == [] then [] else AsSeq(Resolve(policies, actions[0])) + Customs(policies, actions[1..])
  }

  lemma {:induction false} OneMoreDefault(known: set<string>, actions: seq<string>, action: string)
    ensures Defaults(known, actions + [action]) == Defaults(known, actions) + (if action in known then [action] else [])
  {
    if actions != [] {
      OneMoreDefault(known, actions[1..], action);
      assert (actions + [action])[1..] == actions[1..] + [action];
    }
  }

  lemma {:induction false} OneMoreCustom(policies: seq<Policy>, actions: seq<string>, action: string)
    ensures Customs(policies, actions + [action]) == Customs(policies, actions) + AsSeq(Resolve(policies, action))
  {
    if actions == [] {
      assert [] + [action] == [action];
      assert Customs(policies, [action]) == AsSeq(Resolve(policies, action));
    } else {
      OneMoreCustom(policies, actions[1..], action);
      assert (actions + [action])[1..] == actions[1..] + [action];
    }
  }

  // What the check of a fired alarm comes to. The policies are kept under fresh ids, in no
  // particular order.
  datatype Validated =
    | AlarmUrlInvalid
    | PolicyActions(defaults: seq<string>, customs: multiset<(Policy, Option<string>)>)

  // The alarm driver's check (ceilometer.py, _process_alarm).
  predicate Fired(alarmId: Option<string>, status: Option<string>) {
    alarmId.Some? && alarmId.value != "" && status == Some("alarm")
  }

  method ValidateAlarmingPolicy(known: set<string>, policies: seq<Policy>, alarmId: Option<string>,
                                status: Option<string>, action: string)
    returns (r: Validated)
    ensures r == AlarmUrlInvalid <==> alarmId.None? || alarmId.value == "" || status != Some("alarm")
    ensures r != AlarmUrlInvalid ==>
              var actions := Split(action, '%');
              r == PolicyActions(Defaults(known, actions), multiset(Customs(policies, actions)))
  {
    if !Fired(alarmId, status) {
      return AlarmUrlInvalid;
    }
    var defaults, customs := SortActions(known, policies, Split(action, '%'));
    return PolicyActions(defaults, multiset(customs));
  }

  // The loop over the actions.
  method SortActions(known: set<string>, policies: seq<Policy>, actions: seq<string>)
    returns (defaults: seq<string>, customs: seq<(Policy, Option<string>)>)
    ensures defaults == Defaults(known, actions) && customs == Customs(policies, actions)
  {
    defaults, customs := [], [];
    for i := 0 to |actions|
      invariant defaults == Defaults(known, actions[..i]) && customs == Customs(policies, actions[..i])
    {
      OneMoreDefault(known, actions[..i], actions[i]);
      OneMoreCustom(policies, actions[..i], actions[i]);
      assert actions[..i + 1] == actions[..i] + [actions[i]];
      if actions[i] in known {
        defaults := defaults + [actions[i]];
      }
      var policy := Find(policies, actions[i]);
      var backend: Option<string> := None;
      if policy.None? {
        var parts := Split(actions[i], '-');
        if |parts| == 2 {
          policy := Find(policies, parts[0]);
          if policy.Some? {
            backend := Some(parts[1]);
          }
        }
      }
      if policy.Some? {
        customs := customs + [(policy.value, backend)];
      }
    }
    assert actions[..|actions|] == actions;
  }

  // ---- What was meant is what is done ----

  // A scaling policy is meant to be scaled in the trigger's direction; other actions mean
  // themselves.
  function Meant(policies: seq<Policy>, comparison: string, action: string): Option<(Policy, Option<string>)> {
    if IsScaling(policies, action) then Some((Find(policies, action).value, Some(Direction(comparison))))
    else Resolve(policies, action)
  }

  function AllMeant(policies: seq<Policy>, comparison: string, actions: seq<string>): seq<(Policy, Option<string>)> {
    if actions == [] then []
    else AsSeq(Meant(policies, comparison, actions[0])) + AllMeant(policies, comparison, actions[1..])
  }

  function DefaultsMeant(known: set<string>, policies: seq<Policy>, actions: seq<string>): seq<string> {
    if actions == [] then []
    else (if actions[0] in known && !IsScaling(policies, actions[0]) then [actions[0]] else [])
         + DefaultsMeant(known, policies, actions[1..])
  }

  // A scaling policy's name may hold no hyphen, and no other policy may have the refactored name.
  predicate Distinguishable(policies: seq<Policy>, comparison: string, action: string) {
    IsScaling(policies, action) ==>
      Free(action, '-') && Find(policies, Refactor(policies, comparison, action)).None?
  }

  // The policy and the direction come back exactly then; otherwise what comes back, if anything,
  // has no direction.
  lemma PairRecoveredExactly(policies: seq<Policy>, comparison: string, action: string)
    ensures var back := Resolve(policies, Refactor(policies, comparison, action));
            && (back == Meant(policies, comparison, action) <==> Distinguishable(policies, comparison, action))
            && (!Distinguishable(policies, comparison, action) ==> back.None? || back.value.1.None?)
  {
    if IsScaling(policies, action) {
      var d := Direction(comparison);
      var written := Refactor(policies, comparison, action);
      assert written == action + ['-'] + d;
      if Free(action, '-') {
        SplitFirst(action, d, '-');
        SplitFirst(d, "", '-');
      } else {
        MoreThanTwo(action, d);
      }
    }
  }

  lemma MoreThanTwo(action: string, d: string)
    requires !Free(action, '-')
    ensures |Split(action + ['-'] + d, '-')| != 2
  {
    SplitHolds(action, '-');
    SplitCounts(action, d, '-');
  }

  lemma RefactoredIsNoDefault(known: set<string>, policies: seq<Policy>, comparison: string, action: string)
    requires IsScaling(policies, action) && Simple(known)
    ensures Refactor(policies, comparison, action) !in known
  {
    var written := Refactor(policies, comparison, action);
    assert written[|action|] == '-';
  }

  lemma RefactorRest(policies: seq<Policy>, comparison: string, actions: seq<string>)
    requires actions != []
    ensures RefactorAll(policies, comparison, actions)
            == [Refactor(policies, comparison, actions[0])] + RefactorAll(policies, comparison, actions[1..])
  {
  }

  // How many of them come with a direction, or whatever followed a hyphen.
  function Directed(customs: seq<(Policy, Option<string>)>): nat {
    if customs == [] then 0 else (if customs[0].1.Some? then 1 else 0) + Directed(customs[1..])
  }

  lemma {:induction false} DirectedJoins(a: seq<(Policy, Option<string>)>, b: seq<(Policy, Option<string>)>)
    ensures Directed(a + b) == Directed(a) + Directed(b)
  {
    if a == [] {
      assert a + b == b;
    } else {
      DirectedJoins(a[1..], b);
      assert (a + b)[1..] == a[1..] + b;
    }
  }

  lemma WithoutOne<T>(s: seq<T>, j: nat)
    requires j < |s|
    ensures multiset(s[..j] + s[j + 1..]) == multiset(s) - multiset{s[j]}
  {
    assert s == s[..j] + ([s[j]] + s[j + 1..]);
    assert multiset(s) == multiset(s[..j]) + (multiset{s[j]} + multiset(s[j + 1..]));
  }

  // The first element of a has a counterpart in b, and so has the rest.
  lemma WithoutFirst<T>(a: seq<T>, b: seq<T>) returns (j: nat)
    requires multiset(a) == multiset(b) && a != []
    ensures j < |b| && b[j] == a[0] && multiset(a[1..]) == multiset(b[..j] + b[j + 1..])
  {
    j := Counterpart(a, b);
    WithoutHead(a);
    WithoutOne(b, j);
  }

  lemma Counterpart<T>(a: seq<T>, b: seq<T>) returns (j: nat)
    requires multiset(a) == multiset(b) && a != []
    ensures j < |b| && b[j] == a[0]
  {
    assert a[0] in multiset(a);
    j :| 0 <= j < |b| && b[j] == a[0];
  }

  lemma WithoutHead<T>(s: seq<T>)
    requires s != []
    ensures multiset(s[1..]) == multiset(s) - multiset{s[0]}
  {
    assert s == [s[0]] + s[1..];
  }

  lemma {:induction false} DirectedCounts(a: seq<(Policy, Option<string>)>, b: seq<(Policy, Option<string>)>)
    requires multiset(a) == multiset(b)
    ensures Directed(a) == Directed(b)
  {
    if a == [] {
      assert |multiset(b)| == |b|;
      assert b == [];
    } else {
      var j := WithoutFirst(a, b);
      DirectedCounts(a[1..], b[..j] + b[j + 1..]);
      DirectedJoins(b[..j], [a[0]] + b[j + 1..]);
      DirectedJoins(b[..j], b[j + 1..]);
      assert b[..j] + ([a[0]] + b[j + 1..]) == b && ([a[0]] + b[j + 1..])[1..] == b[j + 1..];
    }
  }

  ghost predicate AllDistinguishable(policies: seq<Policy>, comparison: string, actions: seq<string>) {
    forall i | 0 <= i < |actions| :: Distinguishable(policies, comparison, actions[i])
  }

  lemma {:induction false} DefaultsRecovered(known: set<string>, policies: seq<Policy>, comparison: string,
                                             actions: seq<string>)
    requires Simple(known)
    ensures Defaults(known, RefactorAll(policies, comparison, actions)) == DefaultsMeant(known, policies, actions)
  {
    if actions != [] {
      DefaultsRecovered(known, policies, comparison, actions[1..]);
      RefactorRest(policies, comparison, actions);
      if IsScaling(policies, actions[0]) {
        RefactoredIsNoDefault(known, policies, comparison, actions[0]);
      }
    }
  }

  // Directions are only lost, and none is exactly when every action is distinguishable.
  lemma {:induction false} DirectionsLost(policies: seq<Policy>, comparison: string, actions: seq<string>)
    ensures var back := Customs(policies, RefactorAll(policies, comparison, actions));
            var meant := AllMeant(policies, comparison, actions);
            if AllDistinguishable(policies, comparison, actions) then back == meant
            else Directed(back) < Directed(meant)
  {
    if actions != [] {
      var a, rest := actions[0], actions[1..];
      DirectionsLost(policies, comparison, rest);
      RefactorRest(policies, comparison, actions);
      PairRecoveredExactly(policies, comparison, a);
      DirectedJoins(AsSeq(Resolve(policies, Refactor(policies, comparison, a))),
                    Customs(policies, RefactorAll(policies, comparison, rest)));
      DirectedJoins(AsSeq(Meant(policies, comparison, a)), AllMeant(policies, comparison, rest));
      assert AllDistinguishable(policies, comparison, actions) <==>
             Distinguishable(policies, comparison, a) && AllDistinguishable(policies, comparison, rest) by {
        assert forall i | 1 <= i < |actions| :: actions[i] == rest[i - 1];
        assert forall i | 0 <= i < |rest| :: rest[i] == actions[i + 1];
      }
    }
  }

  // The policies a list means come back, each as often as it is meant, exactly then.
  lemma ListRecoveredExactly(policies: seq<Policy>, comparison: string, actions: seq<string>)
    ensures multiset(Customs(policies, RefactorAll(policies, comparison, actions)))
            == multiset(AllMeant(policies, comparison, actions))
            <==> AllDistinguishable(policies, comparison, actions)
  {
    var back := Customs(policies, RefactorAll(policies, comparison, actions));
    var meant := AllMeant(policies, comparison, actions);
    DirectionsLost(policies, comparison, actions);
    if multiset(back) == multiset(meant) {
      DirectedCounts(back, meant);
    }
  }

  // From the trigger's actions, through the URL, to what the plugin does.
  lemma AlarmRoundTrip(host: string, port: string, mea: string, trigger: string, key: string,
                       policies: seq<Policy>, comparison: string, actions: seq<string>)
    requires Plain(host) && Plain(port) && |actions| > 0
    requires Transparent(mea, trigger, RefactorAll(policies, comparison, actions), key)
    ensures var written := Join(RefactorAll(policies, comparison, actions), '%');
            var url := CreateAlarmUrl(host, port, mea, trigger, written, key);
            && IsHttp(url) && Received(url) == Some(Segments(mea, trigger, written, key))
            && Defaults(DEFAULT_ALARM_ACTIONS, Split(written, '%'))
               == DefaultsMeant(DEFAULT_ALARM_ACTIONS, policies, actions)
            && (multiset(Customs(policies, Split(written, '%'))) == multiset(AllMeant(policies, comparison, actions))
                <==> AllDistinguishable(policies, comparison, actions))
  {
    var all := RefactorAll(policies, comparison, actions);
    TransparentIsClean(mea, trigger, all, key);
    ReadBackExactly(host, port, mea, trigger, Join(all, '%'), key);
    SplitJoin(all, '%');
    DefaultActionsAreSimple();
    DefaultsRecovered(DEFAULT_ALARM_ACTIONS, policies, comparison, actions);
    ListRecoveredExactly(policies, comparison, actions);
  }

  // Directions are transparent, so that the names in the list decide.
  lemma TransparentAsWritten(mea: string, trigger: string, policies: seq<Policy>, comparison: string,
                             actions: seq<string>, key: string)
    ensures Transparent(mea, trigger, RefactorAll(policies, comparison, actions), key)
            <==> Transparent(mea, trigger, actions, key)
  {
    var all := RefactorAll(policies, comparison, actions);
    RefactorSpelt(policies, comparison, actions);
    forall i | 0 <= i < |actions|
      ensures Plain(all[i]) <==> Plain(actions[i])
      ensures Free(all[i], '%') <==> Free(actions[i], '%')
      ensures StartsWithHex(all[i]) <==> StartsWithHex(actions[i])
    {
      SuffixTransparent(actions[i], "-out");
      SuffixTransparent(actions[i], "-in");
      assert actions[i] + "" == actions[i];
    }
  }

  lemma SuffixTransparent(action: string, suffix: string)
    requires suffix == "-out" || suffix == "-in"
    ensures Plain(action + suffix) <==> Plain(action)
    ensures Free(action + suffix, '%') <==> Free(action, '%')
    ensures StartsWithHex(action + suffix) <==> StartsWithHex(action)
  {
    assert (action + suffix)[|action|] == '-';
    assert HexValue('-') == None;
  }

  // An action that names a scaling policy comes back from the URL of the written list with that
  // policy and the direction of the trigger, out for gt and in for every other comparison, exactly
  // when the name holds no hyphen and no policy has the name that is written.
  lemma ScalingComesBackExactly(host: string, port: string, mea: string, trigger: string, key: string,
                                policies: seq<Policy>, comparison: string, actions: seq<string>, all: seq<string>,
                                i: nat, policy: Policy)
    requires Written(policies, comparison, actions, all)
    requires Plain(host) && Plain(port) && i < |actions| && Transparent(mea, trigger, actions, key)
    requires IsFirst(policies, actions[i], policy) && policy.kind == SCALING
    ensures var url := CreateAlarmUrl(host, port, mea, trigger, Join(all, '%'), key);
            && IsHttp(url) && Received(url).Some? && |Received(url).value| == 7
            && |Split(Received(url).value[5], '%')| == |actions|
            && (Resolve(policies, Split(Received(url).value[5], '%')[i])
                == Some((policy, Some(if comparison == "gt" then "out" else "in")))
                <==> Free(actions[i], '-')
                     && forall p | p in policies :: p.name != actions[i] + if comparison == "gt" then "-out" else "-in")
  {
    RefactorSpelt(policies, comparison, actions);
    assert all == RefactorAll(policies, comparison, actions);
    TransparentAsWritten(mea, trigger, policies, comparison, actions, key);
    TransparentIsClean(mea, trigger, all, key);
    ReadBackExactly(host, port, mea, trigger, Join(all, '%'), key);
    SplitJoin(all, '%');
    FindsFirst(policies, actions[i], policy);
    FindsFirst(policies, all[i], policy);
    PairRecoveredExactly(policies, comparison, actions[i]);
  }

  // A trigger on low load, as in the sample for scaling: its policy is to be scaled in.
  lemma LowLoadScalesIn()
    ensures RefactorAll([Policy("SP1", SCALING)], "lt", ["SP1"]) == ["SP1-in"]
  {
    var policies := [Policy("SP1", SCALING)];
    RefactorSpelt(policies, "lt", ["SP1"]);
    assert Find(policies, "SP1") == Some(policies[0]);
    assert "SP1" + "-in" == "SP1-in";
  }

  // What a written action stands for: the first policy of that name, or else, with what follows
  // its only hyphen, the first policy of the name before it.
  lemma ResolvesExactly(policies: seq<Policy>, action: string, policy: Policy, suffix: string)
    ensures Resolve(policies, action) == Some((policy, None)) <==> IsFirst(policies, action, policy)
    ensures Resolve(policies, action) == Some((policy, Some(suffix)))
            <==> action != "" && (forall p | p in policies :: p.name != action)
                 && exists name :: Free(name, '-') && Free(suffix, '-') && action == name + ['-'] + suffix
                                   && IsFirst(policies, name, policy)
  {
    FindsFirst(policies, action, policy);
    var parts := Split(action, '-');
    FindsFirst(policies, parts[0], policy);
    SplitIsFree(action, '-');
    JoinSplit(action, '-');
    if |parts| == 2 {
      assert Join(parts, '-') == parts[0] + ['-'] + Join(parts[1..], '-');
      assert Free(parts[0], '-') && Free(parts[1], '-') && action == parts[0] + ['-'] + parts[1];
    }
    forall name | Free(name, '-') && Free(suffix, '-') && action == name + ['-'] + suffix
      ensures parts == [name, suffix]
    {
      SplitFirst(name, suffix, '-');
      SplitFirst(suffix, "", '-');
    }
  }

  // ---- Running ----

  // The default actions run when the alarm fires: the whole name, when it is one of them,
  // and each of the default actions it was split into.
  function DefaultsRun(known: set<string>, action: string): seq<string> {
    (if action in known then [action] else []) + Defaults(known, Split(action, '%'))
  }

  // Each default action of a list runs once, except that one on its own runs twice.
  lemma RunOnceExactly(actions: seq<string>)
    requires |actions| > 0 && AllFree(actions, '%')
    ensures DefaultsRun(DEFAULT_ALARM_ACTIONS, Join(actions, '%')) == Defaults(DEFAULT_ALARM_ACTIONS, actions)
            <==> !(|actions| == 1 && actions[0] in DEFAULT_ALARM_ACTIONS)
  {
    DefaultActionsAreSimple();
    RunOnce(DEFAULT_ALARM_ACTIONS, actions);
  }

  lemma RunOnce(known: set<string>, actions: seq<string>)
    requires |actions| > 0 && AllFree(actions, '%') && Simple(known)
    ensures DefaultsRun(known, Join(actions, '%')) == Defaults(known, actions)
            <==> !(|actions| == 1 && actions[0] in known)
  {
    var joined := Join(actions, '%');
    SplitJoin(actions, '%');
    if |actions| > 1 {
      assert joined[|actions[0]|] == '%';
      assert joined !in known;
    }
    assert |DefaultsRun(known, joined)| == |Defaults(known, actions)| + if joined in known then 1 else 0;
  }

  // ---- Alarms that go wrong ----

  // An alarm that should log and make a backup: the separator and the first two letters of backup
  // are taken for one escaped character.
  lemma BackupMisread(host: string, port: string, mea: string, trigger: string, key: string)
    requires Plain(host) && Plain(port)
    ensures var url := CreateAlarmUrl(host, port, mea, trigger, Join(["log", "backup"], '%'), key);
            IsHttp(url) && !Recovers(url, mea, trigger, ["log", "backup"], key)
    ensures Unquote("%backup") == [0xBA as char] + "ckup"
  {
    assert ["log", "backup"][1] == "backup" && StartsWithHex("backup");
    assert LaterHex(["log", "backup"]);
    ActionsRecoveredExactly(host, port, mea, trigger, ["log", "backup"], key);
    var s := "%backup";
    assert s[1..] == "backup" && Escaped(s) && s[3..] == "ckup";
    UnquoteShortens("ckup");
    FreeHasNoEscape("ckup");
  }

  // A scaling policy called SP-1: the plugin finds no policy for SP-1-out.
  lemma HyphenatedPolicyLost()
    ensures var policies := [Policy("SP-1", SCALING)];
            && Refactor(policies, "gt", "SP-1") == "SP-1-out"
            && Meant(policies, "gt", "SP-1") == Some((policies[0], Some("out")))
            && Resolve(policies, "SP-1-out") == None
  {
    var policies := [Policy("SP-1", SCALING)];
    assert Find(policies, "SP-1") == Some(policies[0]);
    assert "SP-1" + "-" + "out" == "SP-1" + ['-'] + "out" == "SP-1-out";
    assert "SP-1"[2] == '-';
    MoreThanTwo("SP-1", "out");
    assert |"SP-1"| != |"SP-1-out"| && policies[1..] == [];
    assert Find(policies, "SP-1-out") == None;
  }

  // An alarm whose one action is to respawn makes the MEA respawn twice.
  lemma RespawnsTwice()
    ensures DefaultsRun(DEFAULT_ALARM_ACTIONS, Join(["respawn"], '%')) == ["respawn", "respawn"]
  {
    DefaultActionsAreSimple();
    assert "respawn" in DEFAULT_ALARM_ACTIONS;
    SplitJoin(["respawn"], '%');
    assert ["respawn"][1..] == [];
    assert Defaults(DEFAULT_ALARM_ACTIONS, ["respawn"]) == ["respawn"] + Defaults(DEFAULT_ALARM_ACTIONS, []);
  }
}
