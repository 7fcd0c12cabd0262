/**
 The promise both agent runtimes make to the controller about `UpdateResult`
 messages, with no queue, no forwarder and no `early_sent` flag in sight: a
 started update is reported once, either while it is still open (the early
 result of a resumable update) or when it closes; a refused request is reported
 at once.
 */
module ResultSpec {
  type UpdateId = nat

  /** `attempts` counts the send attempts made so far, per update. */
  datatype Spec = Spec(
    open: set<UpdateId>,
    reported: set<UpdateId>,
    closed: set<UpdateId>,
    attempts: multiset<UpdateId>)

  const Start := Spec({}, {}, {}, multiset{})

  datatype Step = Begin(id: UpdateId) | Report(id: UpdateId) | Close(id: UpdateId) | Refuse(id: UpdateId) | Stutter

  predicate Known(s: Spec, id: UpdateId) {
    id in s.open || id in s.closed
  }

  predicate Next(s: Spec, step: Step, t: Spec) {
    match step
    case Begin(id) => !Known(s, id) && t == s.(open := s.open + {id})
    case Report(id) =>
      && id in s.open && id !in s.reported
      && t == s.(reported := s.reported + {id}, attempts := s.attempts + multiset{id})
    case Close(id) =>
      && id in s.open
      && t == Spec(s.open - {id}, s.reported - {id}, s.closed + {id},
                   if id in s.reported then s.attempts else s.attempts + multiset{id})
    case Refuse(id) =>
      && !Known(s, id)
      && t == s.(closed := s.closed + {id}, attempts := s.attempts + multiset{id})
    case Stutter => t == s
  }

  ghost predicate Inv(s: Spec) {
    && s.reported <= s.open
    && s.open !! s.closed
    && forall id :: s.attempts[id] == if id in s.closed || id in s.reported then 1 else 0
  }

  lemma StepKeepsInv(s: Spec, step: Step, t: Spec)
    requires Inv(s) && Next(s, step, t)
    ensures Inv(t)
    ensures s.closed <= t.closed && s.open + s.closed <= t.open + t.closed
  {
    match step
    case Begin(id) =>
      assert s.attempts[id] == 0;
    case Report(id) =>
      assert s.attempts[id] == 0;
    case Close(id) =>
      assert id !in s.closed;
    case Refuse(id) =>
      assert s.attempts[id] == 0;
    case Stutter =>
  }
}
