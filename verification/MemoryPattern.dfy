// MemoryPattern (internal/aichat/memory_store.go), the entry of the agent's memory.
module MemoryPattern {
  datatype Pattern = Pattern(
    id: string,
    problem: string,
    signals: seq<string>,
    avoid: seq<string>,
    advice: seq<string>,
    why: string,
    useCount: int,
    confidence: real,
    lastUsedAt: int,
    archived: bool)
}
