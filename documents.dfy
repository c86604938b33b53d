/** Loading executable documents: the `Kind` values split into operation
    kinds (operations and fragments) and all the others, and
    `loadDocuments` is `loadTypedefs` with every non-operation kind
    filtered out. */
module Documents {
  import opened Results
  import opened GraphQL
  import opened Seqs
  import opened LoadTypedefs

  const OperationKinds: seq<Kind> := [OperationDefinition, FragmentDefinition]

  function IsNonOperation(k: Kind): bool {
    k !in OperationKinds
  }

  /** `NON_OPERATION_KINDS`: every `Kind` value, in enumeration order,
      except the operation kinds. */
  function NonOperationKinds(): (r: seq<Kind>)
    ensures Subsequence(r, AllKinds())
    ensures forall k :: k in r <==> k in AllKinds() && k !in OperationKinds
  {
    FilterSpec(AllKinds(), IsNonOperation);
    Filter(AllKinds(), IsNonOperation)
  }

  /** The two lists partition the kinds: disjoint, and together all of them. */
  lemma KindsPartition(k: Kind)
    ensures k !in NonOperationKinds() <==> k in OperationKinds
    ensures k !in NonOperationKinds() <==> k == OperationDefinition || k == FragmentDefinition
  {
    KindListed(k);
    assert k in OperationKinds <==> k == OperationDefinition || k == FragmentDefinition;
  }

  lemma NonOperationKindsNonEmpty()
    ensures |NonOperationKinds()| > 0
  {
    KindListed(Name);
    assert Name in NonOperationKinds();
  }

  /** Definitions that avoid every non-operation kind are operations or
      fragments. */
  lemma OnlyOperationsRemain(files: seq<DocumentFile>)
    requires forall f, d :: f in files && f.content.Some? && d in f.content.value ==> d.kind !in NonOperationKinds()
    ensures forall f, d :: f in files && f.content.Some? && d in f.content.value ==>
      d.kind == OperationDefinition || d.kind == FragmentDefinition
  {
    forall f, d | f in files && f.content.Some? && d in f.content.value
      ensures d.kind == OperationDefinition || d.kind == FragmentDefinition
    {
      KindsPartition(d.kind);
    }
  }

  /** Every definition `loadTypedefs` returns under the non-operation
      filter is an operation or a fragment. */
  lemma DocumentsAreOperations(documentDef: string, options: LoadOptions, cwd: string, host: Host)
    ensures var r := LoadTypedefsSpec(Single(documentDef), options, Some(NonOperationKinds()), cwd, host);
      r.Ok? ==> forall f, d :: f in r.value && f.content.Some? && d in f.content.value ==>
        d.kind == OperationDefinition || d.kind == FragmentDefinition
  {
    var nonOperation := NonOperationKinds();
    NonOperationKindsNonEmpty();
    ResultRespectsFilter(Single(documentDef), options, nonOperation, cwd, host);
    var r := LoadTypedefsSpec(Single(documentDef), options, Some(nonOperation), cwd, host);
    if r.Ok? {
      OnlyOperationsRemain(r.value);
    }
  }

  /** `loadDocuments`: `loadTypedefs` on the one pointer with the
      non-operation kinds as the filter. */
  method LoadDocuments(documentDef: string, options: LoadOptions, cwd: string, host: Host)
    returns (r: Result<seq<DocumentFile>>)
    ensures r == LoadTypedefsSpec(Single(documentDef), options, Some(NonOperationKinds()), cwd, host)
    ensures r.Ok? ==> forall f, d :: f in r.value && f.content.Some? && d in f.content.value ==>
      d.kind == OperationDefinition || d.kind == FragmentDefinition
  {
    r := LoadTypedefs.LoadTypedefs(Single(documentDef), options, Some(NonOperationKinds()), cwd, host);
    DocumentsAreOperations(documentDef, options, cwd, host);
  }
}
