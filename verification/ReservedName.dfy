/** Which namespace declarations are legal, told from "Namespaces in XML 1.0", section 3. */
module ReservedNames {
  import opened Wrappers
  import opened Bindings

  /** The prefix xml goes with its own namespace and no other, xmlns is not declared, and no prefix is undeclared. */
  predicate Legal(name: Option<string>, uri: string)
  {
    && name != Some("xmlns") && uri != "http://www.w3.org/2000/xmlns/"
    && (name == Some("xml") <==> uri == "http://www.w3.org/XML/1998/namespace")
    && (uri == "" ==> name == None)
  }

  /** Legal declarations are let through, and every illegal one is reported by what is wrong with it first. */
  lemma DeclarationErrorIff(name: Option<string>, uri: string)
    ensures DeclarationError(name, uri) == NoError <==> Legal(name, uri)
    ensures DeclarationError(name, uri) == UndeclaringPrefix <==> name.Some? && uri == ""
    ensures DeclarationError(name, uri) == ReservedPrefixXmlns <==> name == Some("xmlns") && uri != ""
    ensures DeclarationError(name, uri) == ReservedPrefixXml <==>
              name == Some("xml") && uri != "" && uri != "http://www.w3.org/XML/1998/namespace"
    ensures DeclarationError(name, uri) == ReservedNamespaceUri <==>
              && name != Some("xml") && name != Some("xmlns")
              && uri in ["http://www.w3.org/XML/1998/namespace", "http://www.w3.org/2000/xmlns/"]
  {
  }

  /** Whatever is in force along a run was declared legally. */
  lemma CheckedIsLegal(d: Live)
    ensures Checked(d) <==> Legal(d.prefix.name, d.uri)
  {
    DeclarationErrorIff(d.prefix.name, d.uri);
  }

  ghost predicate Fine(declarations: seq<Declaration>, memory: nat -> bool, k: nat)
    requires k < |declarations|
  {
    Legal(declarations[k].prefix.name, declarations[k].uri) && memory(k)
  }

  /** The first declaration of a tag that is illegal or for which there is no memory. */
  ghost predicate FirstBad(declarations: seq<Declaration>, memory: nat -> bool, n: nat, k: nat)
  {
    n <= k < |declarations| && !Fine(declarations, memory, k)
        && forall j :: n <= j < k ==> Fine(declarations, memory, j)
  }

  /** A tag reports nothing exactly when all is fine with its declarations, and else what the first bad one has. */
  lemma {:induction false} FirstErrorIs(declarations: seq<Declaration>, memory: nat -> bool, n: nat)
    requires n <= |declarations|
    ensures FirstError(declarations, memory, n) == NoError <==>
              forall k :: n <= k < |declarations| ==> Fine(declarations, memory, k)
    ensures forall k: nat :: FirstBad(declarations, memory, n, k) ==>
                var d := declarations[k];
                FirstError(declarations, memory, n) ==
                if Legal(d.prefix.name, d.uri) then NoMemory else DeclarationError(d.prefix.name, d.uri)
    decreases |declarations| - n
  {
    if n < |declarations| {
      DeclarationErrorIff(declarations[n].prefix.name, declarations[n].uri);
      FirstErrorIs(declarations, memory, n + 1);
      assert Fine(declarations, memory, n) <==>
             Outcome(declarations[n].prefix.name, declarations[n].uri, memory(n)) == NoError;
      forall k: nat | FirstBad(declarations, memory, n, k) && k > n
        ensures Fine(declarations, memory, n) && FirstBad(declarations, memory, n + 1, k)
      {
      }
    }
  }
}
