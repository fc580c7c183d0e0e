/** The names a mount gives its upstream credentials, and how its reconciler recognises them. */
module OwnerTag {

  const BASE := "cloud-creds-"

  function Prefix(instanceId: string): string {
    BASE + instanceId + "-"
  }

  function CredentialName(instanceId: string, role: string, requestId: string): string {
    Prefix(instanceId) + role + "-" + requestId
  }

  predicate Owns(instanceId: string, name: string) {
    Prefix(instanceId) <= name
  }

  /** Of two instance ids of the same length, each owns only the names made with it. */
  lemma OwnsExactly(a: string, b: string, role: string, requestId: string)
    requires |a| == |b|
    ensures Owns(b, CredentialName(a, role, requestId)) <==> a == b
  {
    var name := CredentialName(a, role, requestId);
    assert name[..|Prefix(a)|] == Prefix(a);
    assert Prefix(a)[|BASE|..|BASE| + |a|] == a;
    assert Prefix(b)[|BASE|..|BASE| + |b|] == b;
    if Owns(b, name) {
      assert Prefix(b) == name[..|Prefix(b)|] == Prefix(a);
    }
    if a == b { assert Prefix(a) <= name; }
  }

  /** The equal length matters: an id that ends another one's first segment would own its names. */
  lemma UnequalLengthsCollide()
    ensures Owns("a", CredentialName("a-b", "role", "1"))
  {
    assert CredentialName("a-b", "role", "1")[..|Prefix("a")|] == Prefix("a");
  }
}
