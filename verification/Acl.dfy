/** Who may see whom (internal/control/acl.go). */
module Acl {
  import opened Net
  import opened NetMap

  datatype Rule = Rule(src: seq<Text>, dst: seq<Text>)
  datatype Policy = Policy(rules: seq<Rule>)

  /** What a rule can name of a machine. */
  datatype Machine = Machine(hostname: Text, ip: Text)

  /** The entry is the wildcard, the machine's host name, or the text of its address. */
  ghost predicate Names(entry: Text, m: Machine) {
    entry == Word("*") || entry == m.hostname || entry == m.ip
  }

  ghost predicate AnyNames(entries: seq<Text>, m: Machine) {
    exists j :: 0 <= j < |entries| && Names(entries[j], m)
  }

  /** Without rules everything is allowed; from the first rule on, only what a rule names. */
  ghost predicate Allowed(p: Option<Policy>, src: Machine, dst: Machine) {
    p.None? || |p.value.rules| == 0
    || exists i :: 0 <= i < |p.value.rules| && AnyNames(p.value.rules[i].src, src) && AnyNames(p.value.rules[i].dst, dst)
  }

  method MatchAny(entries: seq<Text>, m: Machine) returns (r: bool)
    ensures r <==> AnyNames(entries, m)
  {
    for j := 0 to |entries|
      invariant forall k :: 0 <= k < j ==> !Names(entries[k], m)
    {
      var e := entries[j];
      if e == Word("*") || e == m.hostname || e == m.ip {
        return true;
      }
    }
    r := false;
  }

  method Allows(p: Option<Policy>, src: Machine, dst: Machine) returns (r: bool)
    ensures r <==> Allowed(p, src, dst)
  {
    if p.None? || |p.value.rules| == 0 {
      return true;
    }
    var rules := p.value.rules;
    for i := 0 to |rules|
      invariant forall k :: 0 <= k < i ==> !(AnyNames(rules[k].src, src) && AnyNames(rules[k].dst, dst))
    {
      var from := MatchAny(rules[i].src, src);
      if from {
        var to_ := MatchAny(rules[i].dst, dst);
        if to_ {
          return true;
        }
      }
    }
    r := false;
  }

  /** A tunnel is needed as soon as traffic is allowed one way. */
  method Visible(p: Option<Policy>, a: Machine, b: Machine) returns (r: bool)
    ensures r <==> Allowed(p, a, b) || Allowed(p, b, a)
  {
    r := Allows(p, a, b);
    if !r {
      r := Allows(p, b, a);
    }
  }
}
