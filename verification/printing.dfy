/**
 * Where `print_label` sends a stored label: to the printer address in the
 * request, else to the one in the tenant's printer configuration, unless
 * that address is missing or the placeholder "TBD".
 */
module Printing {
  import opened Wrappers
  import opened Tenancy
  import opened ConfigBlock

  /** The port Zebra printers listen on for raw ZPL. */
  const PrinterPort := 9100
  /** The placeholder a tenant document carries before a printer is set up. */
  const Unconfigured := "TBD"
  const PrinterIpKey := "printer_ip"

  datatype PrintOutcome =
    | NoLabel                          // 404: no stored ZPL for the chemical
    | NoPrinter(zpl: string)           // warning: download the ZPL by hand
    | Send(host: string, port: nat, zpl: string)

  /** Python truthiness of an optional text: `None` and "" are false. */
  predicate Given(s: Option<string>) {
    s.Some? && s.value != ""
  }

  /** The address `print_label` settles on: the request's when given, else
      the configuration's `printer_ip`, which is only consulted then. */
  function PrinterAddress(requestIp: Option<string>, config: map<string, string>): (ip: Option<string>)
    ensures Given(requestIp) ==> ip == requestIp
    ensures !Given(requestIp) ==> (ip.Some? <==> PrinterIpKey in config)
    ensures !Given(requestIp) && ip.Some? ==> ip.value == config[PrinterIpKey]
  {
    if Given(requestIp) then requestIp
    else if PrinterIpKey in config then Some(config[PrinterIpKey])
    else None
  }

  /** `print_label` after its queries. `latestZpl` is the ZPL column of the
      newest label of the chemical and type (None when there is no label,
      "" when the column is NULL or empty); `config` is the tenant's printer
      configuration. */
  function PrintTarget(latestZpl: Option<string>, requestIp: Option<string>,
                       config: map<string, string>): (r: PrintOutcome)
    ensures r.NoLabel? <==> !Given(latestZpl)
    ensures r.NoPrinter? ==> r.zpl == latestZpl.value
    ensures r.Send? ==> r.zpl == latestZpl.value && r.port == PrinterPort
    ensures r.Send? ==> r.host != "" && r.host != Unconfigured
    ensures r.Send? ==> Some(r.host) == PrinterAddress(requestIp, config)
  {
    if !Given(latestZpl) then NoLabel
    else
      var ip := PrinterAddress(requestIp, config);
      if !Given(ip) || ip.value == Unconfigured then NoPrinter(latestZpl.value)
      else Send(ip.value, PrinterPort, latestZpl.value)
  }

  /** A stored label is sent exactly when the settled address is a real one. */
  lemma {:induction false} SendsIffConfigured(latestZpl: Option<string>, requestIp: Option<string>,
                           config: map<string, string>)
    requires Given(latestZpl)
    ensures PrintTarget(latestZpl, requestIp, config).Send?
            <==> (var ip := PrinterAddress(requestIp, config);
                  Given(ip) && ip.value != Unconfigured)
  {
  }

  /** An address in the request wins over whatever the configuration says. */
  lemma {:induction false} RequestOverridesConfig(latestZpl: Option<string>, ip: string,
                               config: map<string, string>, config': map<string, string>)
    requires ip != ""
    ensures PrintTarget(latestZpl, Some(ip), config) == PrintTarget(latestZpl, Some(ip), config')
  {
  }

  /** The configuration is consulted when the request has no address, and a
      real configured address is used. */
  lemma {:induction false} ConfigUsedWithoutRequest(latestZpl: Option<string>, requestIp: Option<string>,
                                 config: map<string, string>)
    requires Given(latestZpl) && !Given(requestIp)
    requires PrinterIpKey in config && config[PrinterIpKey] !in {"", Unconfigured}
    ensures PrintTarget(latestZpl, requestIp, config)
            == Send(config[PrinterIpKey], PrinterPort, latestZpl.value)
  {
  }

  /** "TBD" in the configuration behaves as if no address were configured. */
  lemma {:induction false} PlaceholderIsUnconfigured(latestZpl: Option<string>, requestIp: Option<string>,
                                  config: map<string, string>)
    ensures PrintTarget(latestZpl, requestIp, config[PrinterIpKey := Unconfigured])
            == PrintTarget(latestZpl, requestIp, config - {PrinterIpKey})
  {
  }

  /** "TBD" in the request is not an empty address: the configuration is not
      consulted and the label is not sent, whatever the configuration holds. */
  lemma {:induction false} RequestPlaceholderSkipsConfig(latestZpl: Option<string>, config: map<string, string>)
    requires Given(latestZpl)
    ensures PrintTarget(latestZpl, Some(Unconfigured), config) == NoPrinter(latestZpl.value)
  {
  }

  /** End to end: with no address in the request, a label goes to the last
      `printer_ip` written in the tenant document's printer block. */
  lemma {:induction false} PrintsToDocumentPrinter(latestZpl: Option<string>, tenant: TenantRow, store: Store,
                                pre: string, entries: seq<Entry>, post: string, ip: string)
    requires Given(latestZpl)
    requires MarkerFirstAfter(pre, PrinterMarker)
    requires forall k :: 0 <= k < |entries| ==> Writable(entries[k])
    requires TenantKernelPath(tenant.slug) in store
    requires store[TenantKernelPath(tenant.slug)] == RenderDocument(pre, PrinterMarker, entries, post)
    requires LastValue(entries, PrinterIpKey) == Some(ip) && ip != "" && ip != Unconfigured
    ensures PrintTarget(latestZpl, None, PrinterConfig(Some(tenant), store))
            == Send(ip, PrinterPort, latestZpl.value)
  {
    PrinterConfigRoundTrip(tenant, store, pre, entries, post);
  }
}
