/** The labeled gauge the exporter publishes, with the map semantics assumed
    for the metrics library's GaugeVec: one series per value of the single
    label, each carrying a number. */
module Gauge {

  /** Name, help text and label of the one gauge family (main.go:75-78). */
  const FamilyName: string := "node_public_ip"
  const FamilyHelp: string := "Current public facing IP address of a node"
  const AddressLabel: string := "address"

  /** The value every live series carries (float64(1) in the source). */
  const Active: int := 1

  /** A GaugeVec with one label: the family's name and help text, the label's
      name, and the series map from label value to gauge value. */
  class GaugeVec {
    const name: string
    const help: string
    const labelName: string
    var series: map<string, int>

    /** NewGaugeVec: a freshly created vector with the given options holds no series. */
    constructor (name: string, help: string, labelName: string)
      ensures this.name == name && this.help == help && this.labelName == labelName
      ensures series == map[]
    {
      this.name, this.help, this.labelName := name, help, labelName;
      series := map[];
    }

    /** Removes the series with exactly this label value; nothing happens
        when there is no such series. */
    method Delete(address: string) returns (deleted: bool)
      modifies this
      ensures deleted <==> address in old(series)
      ensures series == old(series) - {address}
    {
      deleted := address in series;
      series := series - {address};
    }

    /** With(address).Set(v): creates the series or overwrites its value. */
    method Set(address: string, v: int)
      modifies this
      ensures series == old(series)[address := v]
    {
      series := series[address := v];
    }
  }

  /** The metrics struct of the exporter: a handle on the one gauge vector. */
  class Metrics {
    const ip: GaugeVec

    /** registerMetrics: builds the empty gauge vector of the node_public_ip
        family, labelled by address. Registration with the registry is not
        modelled. */
    constructor Register()
      ensures fresh(ip)
      ensures ip.name == FamilyName && ip.help == FamilyHelp && ip.labelName == AddressLabel
      ensures ip.series == map[]
    {
      ip := new GaugeVec(FamilyName, FamilyHelp, AddressLabel);
    }
  }
}
