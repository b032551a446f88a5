/** When the input validator objects, said of the fields on the way. */
module InputPaths {
  import opened Descriptors
  import opened Reachability
  import opened InputDemands
  import opened Conformance

  /** Clients can set the field. */
  predicate Settable(fd: FieldDesc) { !fd.outputOnly && !fd.exclude }

  /** A message demands what no client can give: an excluded field that is demanded, or whose zero
      value breaks a rule that applies to it; or a member of a oneof none of whose members clients can
      set. */
  ghost predicate DemandsTooMuch(d: MessageDesc) {
    || (exists fd :: fd in d.fields && fd.exclude && !fd.outputOnly &&
         (Demanded(fd) || (fd.zeroViolates && !fd.presence && fd.ignore == Unspecified)))
    || (exists k :: 0 <= k < |d.oneofs| && d.oneofs[k].required && !d.oneofs[k].synthetic &&
         forall fd :: fd in d.fields && fd.oneof == Some(k) ==> !Settable(fd))
  }

  lemma BadExactly(g: Graph, t: TypeName)
    ensures BadInput(g, t) <==> t in g && DemandsTooMuch(g[t])
  {
    if t in g {
      var d := g[t];
      forall fd | MaskedDemand(fd) || fd.exclude { RequiredIsDemanded(fd); }
      if i :| 0 <= i < |d.fields| && MaskedDemand(d.fields[i]) { assert d.fields[i] in d.fields; }
      forall k | 0 <= k < |d.oneofs|
        ensures MaskedOneof(d, k) <==>
          && d.oneofs[k].required && !d.oneofs[k].synthetic
          && forall fd :: fd in d.fields && fd.oneof == Some(k) ==> !Settable(fd)
      {
        if MaskedOneof(d, k) {
          forall fd | fd in d.fields && fd.oneof == Some(k) ensures !Settable(fd) {
            var i :| 0 <= i < |d.fields| && d.fields[i] == fd;
          }
        }
      }
    }
  }

  lemma StepsAreSettable(g: Graph)
    ensures FollowsFields(g, Settable, InputSteps(g))
  {
  }

  /** The validator objects exactly when a path of fields that clients can set leads to a message that
      demands too much. */
  lemma ImpossibleByFields(g: Graph, t: TypeName)
    ensures Impossible(g, t) <==>
      exists path :: FieldPath(g, Settable, t, path) && EndOf(t, path) in g && DemandsTooMuch(g[EndOf(t, path)])
  {
    StepsAreSettable(g);
    ReachByFields(g, Settable, InputSteps(g), BadInputs(g), t);
    forall end { BadExactly(g, end); }
    hide BadInput, DemandsTooMuch;
    if Impossible(g, t) {
      var path :| FieldPath(g, Settable, t, path) && BadInputs(g)(EndOf(t, path));
      assert EndOf(t, path) in g && DemandsTooMuch(g[EndOf(t, path)]);
    }
    if path :| FieldPath(g, Settable, t, path) && EndOf(t, path) in g && DemandsTooMuch(g[EndOf(t, path)]) {
      assert BadInputs(g)(EndOf(t, path));
    }
  }
}
