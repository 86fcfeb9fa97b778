/** The decisions remembered for a kind of permission and an origin. */
module PermissionPolicy {
  import opened Permissions

  datatype Kind = Geolocation | Notifications | Camera | Microphone | CameraAndMicrophone | Other(code: nat)

  /** What an entry is looked up by. */
  datatype Subject = Subject(kind: Kind, origin: string)

  datatype Entry = Entry(subject: Subject, decision: Decision)

  /** The first entry for a subject decides. */
  function Remembered(policy: seq<Entry>, subject: Subject): Decision {
    if policy == [] then Ask
    else if policy[0].subject == subject then policy[0].decision
    else Remembered(policy[1..], subject)
  }

  /** The table after a decision is set; Ask is set by forgetting. */
  function WithDecision(policy: seq<Entry>, subject: Subject, decision: Decision): (after: seq<Entry>)
    ensures forall e <- after :: e.subject == subject || e in policy
  {
    if policy == [] then if decision.Ask? then [] else [Entry(subject, decision)]
    else if policy[0].subject == subject then
      if decision.Ask? then policy[1..] else [Entry(subject, decision)] + policy[1..]
    else [policy[0]] + WithDecision(policy[1..], subject, decision)
  }

  /** At most one entry for a subject, and none for Ask. */
  ghost predicate OneEach(policy: seq<Entry>) {
    policy != [] ==>
      && !policy[0].decision.Ask?
      && Absent(policy[1..], policy[0].subject)
      && OneEach(policy[1..])
  }

  ghost predicate Absent(policy: seq<Entry>, subject: Subject) {
    forall e <- policy :: e.subject != subject
  }

  lemma {:induction false} RememberedAbsent(policy: seq<Entry>, subject: Subject)
    requires Absent(policy, subject)
    ensures Remembered(policy, subject) == Ask
  {
    if policy != [] {
      assert policy[0] in policy;
      RememberedAbsent(policy[1..], subject);
    }
  }

  lemma {:induction false} SetKeepsOneEach(policy: seq<Entry>, subject: Subject, decision: Decision)
    requires OneEach(policy)
    ensures OneEach(WithDecision(policy, subject, decision))
  {
    var after := WithDecision(policy, subject, decision);
    if policy == [] {
      assert decision.Ask? || after[1..] == [];
    } else if policy[0].subject == subject {
      assert decision.Ask? || after[1..] == policy[1..];
    } else {
      SetKeepsOneEach(policy[1..], subject, decision);
      assert after[1..] == WithDecision(policy[1..], subject, decision);
    }
  }

  /** What was set is what is remembered, and nothing else is forgotten. */
  lemma {:induction false} RememberedAfterSet(policy: seq<Entry>, subject: Subject, decision: Decision, other: Subject)
    requires OneEach(policy)
    ensures Remembered(WithDecision(policy, subject, decision), other)
         == if other == subject then decision else Remembered(policy, other)
  {
    var after := WithDecision(policy, subject, decision);
    if policy == [] {
      assert decision.Ask? || after[1..] == [];
    } else if policy[0].subject == subject {
      assert decision.Ask? || after[1..] == policy[1..];
      RememberedAbsent(policy[1..], subject);
    } else {
      assert after[1..] == WithDecision(policy[1..], subject, decision);
      RememberedAfterSet(policy[1..], subject, decision, other);
    }
  }

  /** Setting by position: where the first entry for the subject is, or at the end. */
  lemma {:induction false} WithDecisionAt(policy: seq<Entry>, subject: Subject, decision: Decision, at: nat)
    requires at <= |policy| && Absent(policy[..at], subject)
    requires at < |policy| ==> policy[at].subject == subject
    ensures WithDecision(policy, subject, decision) ==
              policy[..at] + (if decision.Ask? then [] else [Entry(subject, decision)]) +
              (if at < |policy| then policy[at + 1..] else [])
  {
    if at > 0 {
      var (first, rest) := (policy[0], policy[1..]);
      AbsentFront(policy, subject, at);
      WithDecisionAt(rest, subject, decision, at - 1);
      assert WithDecision(policy, subject, decision) == [first] + WithDecision(rest, subject, decision);
      Joins(first, rest[..at - 1], if decision.Ask? then [] else [Entry(subject, decision)],
            if at < |policy| then rest[at..] else []);
    }
  }

  lemma AbsentFront(policy: seq<Entry>, subject: Subject, at: nat)
    requires 0 < at <= |policy| && Absent(policy[..at], subject)
    ensures policy[0].subject != subject && Absent(policy[1..][..at - 1], subject)
    ensures policy[..at] == [policy[0]] + policy[1..][..at - 1]
    ensures at < |policy| ==> policy[1..][at - 1] == policy[at] && policy[1..][at..] == policy[at + 1..]
  {
    assert policy[..at] == [policy[0]] + policy[1..][..at - 1];
    assert policy[0] in policy[..at];
  }

  lemma Joins(first: Entry, front: seq<Entry>, middle: seq<Entry>, back: seq<Entry>)
    ensures [first] + (front + middle + back) == [first] + front + middle + back
  {
  }

  /** Camera and microphone together are their two decisions read as one. */
  function DecisionFor(policy: seq<Entry>, kind: Kind, origin: string): Decision {
    if !kind.CameraAndMicrophone? then Remembered(policy, Subject(kind, origin))
    else
      var camera := Remembered(policy, Subject(Camera, origin));
      var microphone := Remembered(policy, Subject(Microphone, origin));
      if camera.AlwaysDeny? || microphone.AlwaysDeny? then AlwaysDeny
      else if camera.AlwaysAllow? && microphone.AlwaysAllow? then AlwaysAllow
      else Ask
  }

  /** The combined kind is allowed unasked only when each device is, and refused
      unasked as soon as one is; storing a decision for it changes nothing. */
  lemma CombinedNeedsBoth(policy: seq<Entry>, origin: string, stored: Decision)
    requires OneEach(policy)
    ensures DecisionFor(policy, CameraAndMicrophone, origin).AlwaysAllow? <==>
            DecisionFor(policy, Camera, origin).AlwaysAllow? && DecisionFor(policy, Microphone, origin).AlwaysAllow?
    ensures DecisionFor(policy, CameraAndMicrophone, origin).AlwaysDeny? <==>
            DecisionFor(policy, Camera, origin).AlwaysDeny? || DecisionFor(policy, Microphone, origin).AlwaysDeny?
    ensures DecisionFor(WithDecision(policy, Subject(CameraAndMicrophone, origin), stored), CameraAndMicrophone, origin)
         == DecisionFor(policy, CameraAndMicrophone, origin)
  {
    var combined := Subject(CameraAndMicrophone, origin);
    RememberedAfterSet(policy, combined, stored, Subject(Camera, origin));
    RememberedAfterSet(policy, combined, stored, Subject(Microphone, origin));
  }
}
