/**
 * The interface of the external policy library that the delegation code calls:
 * principals, rules and the `satisfies` decision. Its rule grammar is not part of
 * this model; a rule's condition is an arbitrary predicate over a sequence of
 * principals, so every result proved here holds whatever that library decides.
 */
module Sgl {

  type Id = string
  type Role = string
  type Priv = string

  /** An identity with the role labels it carries. */
  datatype Principal = Principal(id: Id, roles: seq<Role>)

  /** A grant: the privileges it hands out and the condition guarding it. */
  datatype Rule = Rule(privs: seq<Priv>, when: seq<Principal> -> bool)
  {
    /** The privileges as a set, as the chain check compares them. */
    function PrivSet(): set<Priv> {
      set p | p in privs
    }
  }

  /** The library's decision whether a group of principals satisfies a rule. */
  function Satisfies(principals: seq<Principal>, rule: Rule): bool {
    rule.when(principals)
  }
}
