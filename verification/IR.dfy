/** `ir.go`: the page document that passes transform and backends print. */
module IR {

  datatype Provenance = Provenance(specSection: string, sources: seq<string>, inputHash: string)

  datatype Zone = ZoneMachine | ZoneEditorial

  datatype MarkerPosition = MarkerBegin | MarkerEnd

  datatype IndexEntry = IndexEntry(page: string, text: string, desc: string)

  datatype Block =
    | ProseBlock(text: string, prov: Provenance)
    | MachineBlock(blockID: string, kind: string, body: string, prov: Provenance)
    | KBRefBlock(area: string, id: string, mode: string, prov: Provenance)
    | TableBlock(columns: seq<string>, rows: seq<seq<string>>, prov: Provenance)
    | IndexBlock(entries: seq<IndexEntry>, prov: Provenance)
    | CategoryBlock(names: seq<string>, prov: Provenance)
    | DiagramBlock(lang: string, source: string, assetRef: string, prov: Provenance)
    | Callout(severity: string, body: string, isMachine: bool, prov: Provenance)
    | EscapeHatch(backend: string, raw: string, prov: Provenance)
    | MarkerBlock(position: MarkerPosition, blockID: string, prov: Provenance, ofZone: string)
  {
    function OwnZone(): Zone {
      match this
      case ProseBlock(_, _) => ZoneEditorial
      case Callout(_, _, isMachine, _) => if isMachine then ZoneMachine else ZoneEditorial
      case _ => ZoneMachine
    }
  }

  datatype Section = Section(heading: string, blocks: seq<Block>)

  /** `generatedAt` is the printed time, `""` for none; so is `lastCurated`. */
  datatype Frontmatter = Frontmatter(title: string, specHash: string, kbCommit: string, generatedAt: string)

  datatype Footer = Footer(lastCurated: string, runID: string, kbCommit: string)

  /** Copying a document copies the reference to its sections, not the sections. */
  datatype Document = Document(frontmatter: Frontmatter, sections: array<Section>, footer: Footer)
}
