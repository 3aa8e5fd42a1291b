/**
 * Session construction (`NewClient`): detect the daemon address, default the
 * namespace, connect. The accessibility probe and the connection attempt
 * (`ctdclient.New`) are parameters; the output sink is not modelled.
 */
module Session {
  import opened Runtime
  import opened Address

  /** The namespace used when none is given. */
  const DefaultNamespace: string := "default"

  /** The caller's options (`Options`): an empty string means "not given". */
  datatype Options = Options(address: string, namespace: string)

  /** A session (`Client`): the daemon address it connected to and its namespace. */
  datatype Client = Client(address: string, namespace: string)

  /** Why a session could not be opened. */
  datatype OpenError = NoAddress | ConnectFailed(cause: RuntimeError)

  datatype Opened = Open(client: Client) | OpenFailed(error: OpenError)

  /** The session's namespace: the option when non-empty, "default" otherwise.
      It is never empty. */
  function NamespaceFor(option: string): (ns: string)
    ensures |ns| > 0
    ensures |option| > 0 ==> ns == option
    ensures |option| == 0 ==> ns == DefaultNamespace
  {
    if |option| > 0 then option else DefaultNamespace
  }

  /** `NewClient`: address detection first (its failure is returned before
      anything else happens), then the namespace default, then the connection
      to the detected address in that namespace (its failure is returned as is). */
  method NewClient(opts: Options, accessible: string -> bool, connect: (string, string) -> Reply<()>)
    returns (r: Opened)
    ensures var d := FirstAccessible(Candidates(opts.address), accessible);
      r == OpenFailed(NoAddress) <==> d.NoAddressFound?
    ensures var d := FirstAccessible(Candidates(opts.address), accessible);
      var ns := NamespaceFor(opts.namespace);
      r.Open? <==> d.Found? && connect(d.address, ns).Ok?
    ensures var d := FirstAccessible(Candidates(opts.address), accessible);
      r.Open? ==> d.Found? && r.client == Client(d.address, NamespaceFor(opts.namespace))
    ensures var d := FirstAccessible(Candidates(opts.address), accessible);
      r.OpenFailed? && r.error.ConnectFailed? ==>
        d.Found? && connect(d.address, NamespaceFor(opts.namespace)) == Err(r.error.cause)
  {
    var addr := DetectAddress(opts.address, accessible);
    if addr.NoAddressFound? {
      return OpenFailed(NoAddress);
    }
    var namespace := NamespaceFor(opts.namespace);
    var conn := connect(addr.address, namespace);
    if conn.Err? {
      return OpenFailed(ConnectFailed(conn.error));
    }
    return Open(Client(addr.address, namespace));
  }

  /** The client that `NewClient` opens (its third ensures) is bound to an
      accessible candidate address and to a non-empty namespace, the given
      one when one was given. */
  lemma OpenedSessionIsWellFormed(opts: Options, accessible: string -> bool)
    requires FirstAccessible(Candidates(opts.address), accessible).Found?
    ensures var c := Client(FirstAccessible(Candidates(opts.address), accessible).address,
                            NamespaceFor(opts.namespace));
      accessible(c.address) && c.address in Candidates(opts.address) && |c.namespace| > 0
      && (|opts.namespace| > 0 ==> c.namespace == opts.namespace)
  {
  }
}
